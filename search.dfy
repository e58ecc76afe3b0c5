/** The `get_queryset` search filters of the five list views. Each reads the
    `q` parameter; when it is absent or empty the rows pass through
    untouched, otherwise a row is kept when `q` occurs, ignoring case, in at
    least one of the view's listed fields. The database filter becomes an
    order-preserving filter over a sequence of rows. */
module Search {
  import opened Request
  import opened Text
  import opened Records

  // ---------------------------------------------------------------------
  // Order-preserving filter over a sequence of rows
  // ---------------------------------------------------------------------

  /** The rows of `s` that satisfy `p`, in their original order. */
  function Keep<T>(s: seq<T>, p: T -> bool): (r: seq<T>)
    ensures |r| <= |s|
    ensures forall x :: x in r ==> x in s && p(x)
    ensures forall i :: 0 <= i < |s| && p(s[i]) ==> s[i] in r
  {
    if s == [] then []
    else Keep(s[..|s| - 1], p) + (if p(s[|s| - 1]) then [s[|s| - 1]] else [])
  }

  /** The positions in `s` whose rows satisfy `p`, in increasing order. */
  function KeptPositions<T>(s: seq<T>, p: T -> bool): (idx: seq<nat>)
    ensures forall k :: 0 <= k < |idx| ==> idx[k] < |s| && p(s[idx[k]])
    ensures forall i :: 0 <= i < |s| && p(s[i]) ==> i in idx
    ensures forall k, l :: 0 <= k < l < |idx| ==> idx[k] < idx[l]
  {
    if s == [] then []
    else KeptPositions(s[..|s| - 1], p) + (if p(s[|s| - 1]) then [|s| - 1] else [])
  }

  /** `r` is `s` with some rows left out: the k-th row of `r` is the
      `idx[k]`-th row of `s`, and the positions increase. */
  ghost predicate EmbedsAt<T>(r: seq<T>, s: seq<T>, idx: seq<nat>) {
    && |idx| == |r|
    && (forall k :: 0 <= k < |idx| ==> idx[k] < |s| && r[k] == s[idx[k]])
    && (forall k, l :: 0 <= k < l < |idx| ==> idx[k] < idx[l])
  }

  /** `Keep` is an order-preserving subsequence: it takes exactly the rows at
      the positions that satisfy `p`, in order. */
  lemma {:induction false} KeepEmbeds<T>(s: seq<T>, p: T -> bool)
    ensures EmbedsAt(Keep(s, p), s, KeptPositions(s, p))
  {
    if s != [] {
      var init, last := s[..|s| - 1], s[|s| - 1];
      KeepEmbeds(init, p);
      var r0, idx0 := Keep(init, p), KeptPositions(init, p);
      if p(last) {
        var r, idx := r0 + [last], idx0 + [|s| - 1];
        assert Keep(s, p) == r && KeptPositions(s, p) == idx;
        forall k | 0 <= k < |idx|
          ensures idx[k] < |s| && r[k] == s[idx[k]]
        {
          if k < |idx0| {
            assert r[k] == r0[k] && idx[k] == idx0[k] && s[idx0[k]] == init[idx0[k]];
          }
        }
      } else {
        assert Keep(s, p) == r0 && KeptPositions(s, p) == idx0;
        forall k | 0 <= k < |idx0|
          ensures idx0[k] < |s| && r0[k] == s[idx0[k]]
        {
          assert s[idx0[k]] == init[idx0[k]];
        }
      }
    }
  }

  /** Any relation that holds between every earlier and later row of `s`
      still holds between every earlier and later row of `Keep(s, p)`. */
  lemma KeepPreservesOrder<T>(s: seq<T>, p: T -> bool, before: (T, T) -> bool)
    requires forall i, j :: 0 <= i < j < |s| ==> before(s[i], s[j])
    ensures forall k, l :: 0 <= k < l < |Keep(s, p)| ==> before(Keep(s, p)[k], Keep(s, p)[l])
  {
    KeepEmbeds(s, p);
    var r, idx := Keep(s, p), KeptPositions(s, p);
    forall k, l | 0 <= k < l < |r|
      ensures before(r[k], r[l])
    {
      assert r[k] == s[idx[k]] && r[l] == s[idx[l]] && idx[k] < idx[l];
    }
  }

  /** Keeping every row changes nothing. */
  lemma {:induction false} KeepAll<T>(s: seq<T>, p: T -> bool)
    requires forall x :: x in s ==> p(x)
    ensures Keep(s, p) == s
  {
    if s != [] {
      KeepAll(s[..|s| - 1], p);
      assert s[..|s| - 1] + [s[|s| - 1]] == s;
    }
  }

  // ---------------------------------------------------------------------
  // OrganizationList.get_queryset
  // ---------------------------------------------------------------------

  predicate OrganizationMatches(q: string, o: Organization) {
    IContains(o.name, q) || IContains(o.description, q) || IContains(o.college.collegeName, q)
  }

  function SearchOrganizations(q: Option<string>, rows: seq<Organization>): (r: seq<Organization>)
    ensures !IsSet(q) ==> r == rows
    ensures |r| <= |rows|
    ensures IsSet(q) ==> forall o :: o in r <==>
      o in rows && (OccursIgnoringCase(q.value, o.name)
                    || OccursIgnoringCase(q.value, o.description)
                    || OccursIgnoringCase(q.value, o.college.collegeName))
    ensures IsSet(q) ==> EmbedsAt(r, rows, KeptPositions(rows, o => OrganizationMatches(q.value, o)))
  {
    if IsSet(q) then
      KeepEmbeds(rows, o => OrganizationMatches(q.value, o));
      Keep(rows, o => OrganizationMatches(q.value, o))
    else rows
  }

  // ---------------------------------------------------------------------
  // OrgMemberListView.get_queryset
  // ---------------------------------------------------------------------

  /** The year, month and day lookups compare against the decimal text of
      the extracted integer, so "3" matches March and the 3rd, 13th, 23rd
      and 30th to 31st days as well as years containing a 3. */
  predicate OrgMemberMatches(q: string, m: OrgMember) {
    || IContains(m.student.lastname, q)
    || IContains(m.student.firstname, q)
    || IContains(DecimalText(m.dateJoined.year), q)
    || IContains(DecimalText(m.dateJoined.month), q)
    || IContains(DecimalText(m.dateJoined.day), q)
    || IContains(m.organization.name, q)
  }

  function SearchOrgMembers(q: Option<string>, rows: seq<OrgMember>): (r: seq<OrgMember>)
    ensures !IsSet(q) ==> r == rows
    ensures |r| <= |rows|
    ensures IsSet(q) ==> forall m :: m in r <==>
      m in rows && (OccursIgnoringCase(q.value, m.student.lastname)
                    || OccursIgnoringCase(q.value, m.student.firstname)
                    || Occurs(Lower(q.value), DecimalText(m.dateJoined.year))
                    || Occurs(Lower(q.value), DecimalText(m.dateJoined.month))
                    || Occurs(Lower(q.value), DecimalText(m.dateJoined.day))
                    || OccursIgnoringCase(q.value, m.organization.name))
    ensures IsSet(q) ==> EmbedsAt(r, rows, KeptPositions(rows, m => OrgMemberMatches(q.value, m)))
  {
    if IsSet(q) then
      assert forall m: OrgMember ::
        && Lower(DecimalText(m.dateJoined.year)) == DecimalText(m.dateJoined.year)
        && Lower(DecimalText(m.dateJoined.month)) == DecimalText(m.dateJoined.month)
        && Lower(DecimalText(m.dateJoined.day)) == DecimalText(m.dateJoined.day)
      by {
        forall m: OrgMember
          ensures && Lower(DecimalText(m.dateJoined.year)) == DecimalText(m.dateJoined.year)
                  && Lower(DecimalText(m.dateJoined.month)) == DecimalText(m.dateJoined.month)
                  && Lower(DecimalText(m.dateJoined.day)) == DecimalText(m.dateJoined.day)
        {
          LowerDecimalText(m.dateJoined.year);
          LowerDecimalText(m.dateJoined.month);
          LowerDecimalText(m.dateJoined.day);
        }
      }
      KeepEmbeds(rows, m => OrgMemberMatches(q.value, m));
      Keep(rows, m => OrgMemberMatches(q.value, m))
    else
      rows
  }

  // ---------------------------------------------------------------------
  // StudentListView.get_queryset
  // ---------------------------------------------------------------------

  predicate StudentMatches(q: string, s: Student) {
    || IContains(s.lastname, q)
    || IContains(s.firstname, q)
    || IContains(s.middlename, q)
    || IContains(s.studentId, q)
    || IContains(s.program.progName, q)
  }

  function SearchStudents(q: Option<string>, rows: seq<Student>): (r: seq<Student>)
    ensures !IsSet(q) ==> r == rows
    ensures |r| <= |rows|
    ensures IsSet(q) ==> forall s :: s in r <==>
      s in rows && (OccursIgnoringCase(q.value, s.lastname)
                    || OccursIgnoringCase(q.value, s.firstname)
                    || OccursIgnoringCase(q.value, s.middlename)
                    || OccursIgnoringCase(q.value, s.studentId)
                    || OccursIgnoringCase(q.value, s.program.progName))
    ensures IsSet(q) ==> EmbedsAt(r, rows, KeptPositions(rows, s => StudentMatches(q.value, s)))
  {
    if IsSet(q) then
      KeepEmbeds(rows, s => StudentMatches(q.value, s));
      Keep(rows, s => StudentMatches(q.value, s))
    else rows
  }

  // ---------------------------------------------------------------------
  // CollegeListView.get_queryset
  // ---------------------------------------------------------------------

  predicate CollegeMatches(q: string, c: College) {
    IContains(c.collegeName, q)
  }

  function SearchColleges(q: Option<string>, rows: seq<College>): (r: seq<College>)
    ensures !IsSet(q) ==> r == rows
    ensures |r| <= |rows|
    ensures IsSet(q) ==> forall c :: c in r <==>
      c in rows && OccursIgnoringCase(q.value, c.collegeName)
    ensures IsSet(q) ==> EmbedsAt(r, rows, KeptPositions(rows, c => CollegeMatches(q.value, c)))
  {
    if IsSet(q) then
      KeepEmbeds(rows, c => CollegeMatches(q.value, c));
      Keep(rows, c => CollegeMatches(q.value, c))
    else rows
  }

  // ---------------------------------------------------------------------
  // ProgramListView.get_queryset
  // ---------------------------------------------------------------------

  predicate ProgramMatches(q: string, p: Program) {
    IContains(p.progName, q) || IContains(p.college.collegeName, q)
  }

  function SearchPrograms(q: Option<string>, rows: seq<Program>): (r: seq<Program>)
    ensures !IsSet(q) ==> r == rows
    ensures |r| <= |rows|
    ensures IsSet(q) ==> forall p :: p in r <==>
      p in rows && (OccursIgnoringCase(q.value, p.progName)
                    || OccursIgnoringCase(q.value, p.college.collegeName))
    ensures IsSet(q) ==> EmbedsAt(r, rows, KeptPositions(rows, p => ProgramMatches(q.value, p)))
  {
    if IsSet(q) then
      KeepEmbeds(rows, p => ProgramMatches(q.value, p));
      Keep(rows, p => ProgramMatches(q.value, p))
    else rows
  }

  // ---------------------------------------------------------------------
  // Properties shared by the five searches
  // ---------------------------------------------------------------------

  /** An empty `q` and an absent `q` list the same rows. */
  lemma EmptyTermIsNoTerm(orgs: seq<Organization>, members: seq<OrgMember>,
                          students: seq<Student>, colleges: seq<College>, programs: seq<Program>)
    ensures SearchOrganizations(Some(""), orgs) == SearchOrganizations(None, orgs)
    ensures SearchOrgMembers(Some(""), members) == SearchOrgMembers(None, members)
    ensures SearchStudents(Some(""), students) == SearchStudents(None, students)
    ensures SearchColleges(Some(""), colleges) == SearchColleges(None, colleges)
    ensures SearchPrograms(Some(""), programs) == SearchPrograms(None, programs)
  {
  }

  /** The empty term occurs in every field, so the filter it would apply
      keeps every row: the `if q:` guard only skips a filter that would
      change nothing. */
  lemma EmptyTermFilterKeepsAll(orgs: seq<Organization>, members: seq<OrgMember>,
                                students: seq<Student>, colleges: seq<College>, programs: seq<Program>)
    ensures Keep(orgs, o => OrganizationMatches("", o)) == orgs
    ensures Keep(members, m => OrgMemberMatches("", m)) == members
    ensures Keep(students, s => StudentMatches("", s)) == students
    ensures Keep(colleges, c => CollegeMatches("", c)) == colleges
    ensures Keep(programs, p => ProgramMatches("", p)) == programs
  {
    assert forall x: string :: IContains(x, "") by {
      forall x: string ensures IContains(x, "") {
        EmptyOccursEverywhere(Lower(x));
      }
    }
    KeepAll(orgs, o => OrganizationMatches("", o));
    KeepAll(members, m => OrgMemberMatches("", m));
    KeepAll(students, s => StudentMatches("", s));
    KeepAll(colleges, c => CollegeMatches("", c));
    KeepAll(programs, p => ProgramMatches("", p));
  }

  /** Searching again with the same term changes nothing. */
  lemma SearchIdempotent(q: Option<string>, members: seq<OrgMember>)
    ensures SearchOrgMembers(q, SearchOrgMembers(q, members)) == SearchOrgMembers(q, members)
  {
    if IsSet(q) {
      KeepAll(SearchOrgMembers(q, members), m => OrgMemberMatches(q.value, m));
    }
  }
}
