/**
 * The doctors page: a fixed list of doctors, searched by name,
 * specialization or department and narrowed by a department drop-down whose
 * entries are derived from the list, with the avatar letter and status class
 * each card shows and the summary counts.
 */
module Doctors {
  import opened Strings
  import opened Lists

  datatype Doctor = Doctor(
    id: int,
    name: string,
    specialization: string,
    department: string,
    phone: string,
    email: string,
    availability: string,
    status: string)

  const All := "All"
  const Available := "Available"
  const OnLeave := "On Leave"

  /** The six doctors the page lists; the page never changes them. */
  const Seed: seq<Doctor> := [
    Doctor(1, "Dr. John Smith", "General Medicine", "General", "9876543210", "john.smith@hospital.com", "Mon-Fri", Available),
    Doctor(2, "Dr. Sarah Johnson", "Cardiology", "Cardiology", "9876543211", "sarah.johnson@hospital.com", "Mon-Sat", Available),
    Doctor(3, "Dr. Mike Williams", "Dental", "Dental", "9876543212", "mike.williams@hospital.com", "Tue-Sat", OnLeave),
    Doctor(4, "Dr. Emily Brown", "Neurology", "Neurology", "9876543213", "emily.brown@hospital.com", "Mon-Fri", Available),
    Doctor(5, "Dr. David Lee", "Orthopedics", "Orthopedics", "9876543214", "david.lee@hospital.com", "Wed-Sun", Available),
    Doctor(6, "Dr. Lisa Anderson", "Pediatrics", "Pediatrics", "9876543215", "lisa.anderson@hospital.com", "Mon-Fri", Available)
  ]

  // ---------------------------------------------------------------------------
  // The department drop-down
  // ---------------------------------------------------------------------------

  /** `doctors.map((d) => d.department)`. */
  function DepartmentNames(list: seq<Doctor>): (r: seq<string>)
    ensures |r| == |list|
    ensures forall i :: 0 <= i < |list| ==> r[i] == list[i].department
  {
    seq(|list|, i requires 0 <= i < |list| => list[i].department)
  }

  /** `["All", ...new Set(doctors.map((d) => d.department))]`. */
  function Departments(list: seq<Doctor>): (r: seq<string>)
    ensures |r| >= 1 && r[0] == All
    ensures NoDuplicates(r[1..])
    ensures forall i :: 1 <= i < |r| ==> exists k :: 0 <= k < |list| && list[k].department == r[i]
    ensures forall k :: 0 <= k < |list| ==> list[k].department in r[1..]
  {
    var names := DepartmentNames(list);
    var r := [All] + Distinct(names);
    assert r[1..] == Distinct(names);
    assert forall i :: 1 <= i < |r| ==> r[i] in names;
    r
  }

  /** The drop-down lists the departments in the order they first appear among the doctors. */
  lemma DepartmentsInFirstOccurrenceOrder(list: seq<Doctor>)
    ensures var r := Departments(list); var names := DepartmentNames(list);
      forall i, j :: 1 <= i < j < |r| ==> FirstIndex(names, r[i]) < FirstIndex(names, r[j])
  {
    var names := DepartmentNames(list);
    var r := Departments(list);
    DistinctFirstOccurrenceOrder(names);
    assert r[1..] == Distinct(names);
    forall i, j | 1 <= i < j < |r| ensures FirstIndex(names, r[i]) < FirstIndex(names, r[j]) {
      assert r[i] == Distinct(names)[i - 1] && r[j] == Distinct(names)[j - 1];
    }
  }

  /** The "Departments" summary, `departments.length - 1`, is the number of distinct departments. */
  lemma DepartmentSummary(list: seq<Doctor>)
    ensures |Departments(list)| - 1 == |set k | 0 <= k < |list| :: list[k].department|
  {
    var names := DepartmentNames(list);
    DistinctCount(names);
    assert (set x | x in names) == (set k | 0 <= k < |list| :: list[k].department) by {
      forall x | x in names ensures x in (set k | 0 <= k < |list| :: list[k].department) {
        var k :| 0 <= k < |names| && names[k] == x;
        assert list[k].department == x;
      }
    }
  }

  // ---------------------------------------------------------------------------
  // Search and department filter
  // ---------------------------------------------------------------------------

  /** `matchesSearch`: name, specialization or department contains the term, ignoring case. */
  predicate MatchesSearch(d: Doctor, term: string)
  {
    ContainsIgnoringCase(d.name, term) || ContainsIgnoringCase(d.specialization, term)
    || ContainsIgnoringCase(d.department, term)
  }

  /** `matchesDepartment`: the filter is "All" or names the doctor's department exactly. */
  predicate MatchesDepartment(d: Doctor, filter: string)
  {
    filter == All || d.department == filter
  }

  function Shown(term: string, filter: string): Doctor -> bool
  {
    (d: Doctor) => MatchesSearch(d, term) && MatchesDepartment(d, filter)
  }

  /** `filteredDoctors`: the doctors that match both the search and the filter, in list order. */
  function FilteredDoctors(list: seq<Doctor>, term: string, filter: string): (r: seq<Doctor>)
    ensures IsSubsequence(r, list)
    ensures forall i :: 0 <= i < |r| ==> MatchesSearch(r[i], term) && MatchesDepartment(r[i], filter) && r[i] in list
    ensures forall i :: 0 <= i < |list| && MatchesSearch(list[i], term) && MatchesDepartment(list[i], filter) ==>
      list[i] in r
  {
    FilterShape(list, Shown(term, filter));
    FilterBy(list, Shown(term, filter))
  }

  /** The page keeps every copy of each doctor it shows and none of any other. */
  lemma SearchKeepsCopies(list: seq<Doctor>, term: string, filter: string)
    ensures forall d :: multiset(FilteredDoctors(list, term, filter))[d] == if Shown(term, filter)(d) then multiset(list)[d] else 0
  {
    FilterMultiplicity(list, Shown(term, filter));
  }

  /** With no search term and the "All" filter every doctor is shown, in order. */
  lemma DefaultViewShowsAll(list: seq<Doctor>)
    ensures FilteredDoctors(list, "", All) == list
  {
    forall i | 0 <= i < |list| ensures Shown("", All)(list[i]) {
      EmptyTermMatches(list[i].name);
    }
    FilterAllTrue(list, Shown("", All));
  }

  /** The search ignores the case of the term. */
  lemma SearchIgnoresTermCase(list: seq<Doctor>, term: string, filter: string)
    ensures FilteredDoctors(list, term, filter) == FilteredDoctors(list, Lower(term), filter)
  {
    forall i | 0 <= i < |list| ensures Shown(term, filter)(list[i]) == Shown(Lower(term), filter)(list[i]) {
      ContainsIgnoringCaseInsensitive(list[i].name, term);
      ContainsIgnoringCaseInsensitive(list[i].specialization, term);
      ContainsIgnoringCaseInsensitive(list[i].department, term);
    }
    FilterAgree(list, Shown(term, filter), Shown(Lower(term), filter));
  }

  /** A filter that is not "All" compares the department exactly, so it is case-sensitive. */
  lemma FilterIsExact(list: seq<Doctor>, filter: string)
    requires filter != All
    requires forall i :: 0 <= i < |list| ==> list[i].department != filter
    ensures FilteredDoctors(list, "", filter) == []
  {
    FilterNoneTrue(list, Shown("", filter));
  }

  // ---------------------------------------------------------------------------
  // What each card shows
  // ---------------------------------------------------------------------------

  /**
   * `name.split(" ").slice(1, 2)[0]?.charAt(0) || "D"`: the first character
   * of the second space-separated word, or "D" when there is no second word
   * or it is empty.
   */
  function AvatarInitial(name: string): (r: string)
    ensures |r| == 1
  {
    var parts := Split(name, ' ');
    if |parts| >= 2 && |parts[1]| > 0 then [parts[1][0]] else "D"
  }

  /**
   * The avatar letter without splitting: the character right after the first
   * space, when there is one and it is not itself a space, and "D" otherwise.
   */
  lemma AvatarInitialAfterFirstSpace(name: string)
    ensures ' ' !in name ==> AvatarInitial(name) == "D"
    ensures ' ' in name ==>
      var i := IndexOf(name, ' ');
      AvatarInitial(name) == if i + 1 < |name| && name[i + 1] != ' ' then [name[i + 1]] else "D"
  {
    if ' ' in name {
      var i := IndexOf(name, ' ');
      var rest := name[i + 1..];
      SplitSecond(name, ' ');
      SplitFirst(rest, ' ');
      var second := Split(name, ' ')[1];
      if ' ' in rest {
        var j := IndexOf(rest, ' ');
        assert second == rest[..j];
        if j > 0 {
          assert second[0] == name[i + 1];
        } else {
          assert rest[0] == ' ';
        }
      } else {
        assert second == rest;
      }
    }
  }

  /** "Dr. John Smith" shows "J", the first letter of the first name. */
  lemma AvatarOfFullName(name: string)
    requires name == "Dr. John Smith"
    ensures AvatarInitial(name) == "J"
  {
    IndexOfAt(name, ' ', 3);
    assert name[4] == 'J';
    AvatarInitialAfterFirstSpace(name);
  }

  /** A name without a space has no second word and shows "D". */
  lemma AvatarOfSingleWord(name: string)
    requires name == "Smith"
    ensures AvatarInitial(name) == "D"
  {
    AvatarInitialAfterFirstSpace(name);
    assert forall k :: 0 <= k < |name| ==> name[k] != ' ';
  }

  /** Two spaces in a row make the second word empty, so the name shows "D". */
  lemma AvatarAfterDoubleSpace(name: string)
    requires name == "Dr.  Smith"
    ensures AvatarInitial(name) == "D"
  {
    IndexOfAt(name, ' ', 3);
    assert name[4] == ' ';
    AvatarInitialAfterFirstSpace(name);
  }

  /** `status.toLowerCase().replace(" ", "-")`: the status in lower case with its first space turned into "-". */
  function StatusClass(status: string): string
  {
    ReplaceFirst(Lower(status), ' ', '-')
  }

  /**
   * The status class has no upper-case letter, turns the first space of the
   * status into "-", and keeps every other character lower-cased in place.
   */
  lemma StatusClassShape(status: string)
    ensures |StatusClass(status)| == |status|
    ensures forall k :: 0 <= k < |status| ==> !IsUpper(StatusClass(status)[k])
    ensures ' ' !in status ==> StatusClass(status) == Lower(status)
    ensures ' ' in status ==> StatusClass(status)[IndexOf(status, ' ')] == '-'
    ensures ' ' in status ==> forall k :: 0 <= k < |status| && k != IndexOf(status, ' ') ==>
      StatusClass(status)[k] == LowerChar(status[k])
  {
    var low := Lower(status);
    assert forall k :: 0 <= k < |status| ==> (low[k] == ' ' <==> status[k] == ' ');
    if ' ' in status {
      var i := IndexOf(status, ' ');
      assert low[i] == ' ';
      assert ' ' !in low[..i] by {
        forall k | 0 <= k < i ensures low[k] != ' ' { assert status[..i][k] == status[k]; }
      }
      assert IndexOf(low, ' ') == i;
    } else {
      assert ' ' !in low by {
        forall k | 0 <= k < |low| ensures low[k] != ' ' { assert status[k] in status; }
      }
    }
  }

  /** "On Leave" becomes "on-leave". */
  lemma StatusClassOnLeave(status: string)
    requires status == "On Leave"
    ensures StatusClass(status) == "on-leave"
  {
    IndexOfAt(status, ' ', 2);
    StatusClassShape(status);
    var c := StatusClass(status);
    assert forall k :: 0 <= k < |c| ==> c[k] == "on-leave"[k];
  }

  /** "Available" becomes "available". */
  lemma StatusClassAvailable(status: string)
    requires status == "Available"
    ensures StatusClass(status) == "available"
  {
    assert ' ' !in status by {
      forall k | 0 <= k < |status| ensures status[k] != ' ' { }
    }
    StatusClassShape(status);
    var low := Lower(status);
    assert forall k :: 0 <= k < |low| ==> low[k] == "available"[k];
  }

  // ---------------------------------------------------------------------------
  // Summary counts
  // ---------------------------------------------------------------------------

  function HasStatus(status: string): Doctor -> bool
  {
    (d: Doctor) => d.status == status
  }

  /** `doctors.filter((d) => d.status === status).length`. */
  function StatusCount(list: seq<Doctor>, status: string): (n: nat)
    ensures n <= |list|
  {
    CountBy(list, HasStatus(status))
  }

  /** The "Available Today" and "On Leave" counts together never exceed "Total Doctors". */
  lemma StatusSummary(list: seq<Doctor>)
    ensures StatusCount(list, Available) + StatusCount(list, OnLeave) <= |list|
    ensures (forall i :: 0 <= i < |list| ==> list[i].status == Available || list[i].status == OnLeave) ==>
      StatusCount(list, Available) + StatusCount(list, OnLeave) == |list|
  {
    CountPartition2(list, HasStatus(Available), HasStatus(OnLeave));
  }

  /** The listed doctors: six of them, the third on leave and every other one available. */
  lemma SeedStatuses(list: seq<Doctor>)
    requires list == Seed
    ensures |list| == 6 && list[2].status == OnLeave
    ensures forall i :: 0 <= i < |list| && i != 2 ==> list[i].status == Available
  {
  }

  /** On the listed doctors the summary shows 6 in total, 5 available today and 1 on leave. */
  lemma SeedSummary(list: seq<Doctor>)
    requires list == Seed
    ensures |list| == 6
    ensures StatusCount(list, Available) == 5
    ensures StatusCount(list, OnLeave) == 1
  {
    SeedStatuses(list);
    FilterDropsOne(list, HasStatus(Available), 2);
    StatusSummary(list);
  }
}
