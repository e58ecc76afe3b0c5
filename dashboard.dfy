/** The dashboard's "students joined this year" figure
    (`HomePageView.get_context_data`): the number of distinct students
    among the memberships whose join date falls in the current year. The
    server clock is not modelled; the current year is a parameter. */
module Dashboard {
  import opened Records

  predicate JoinedIn(m: OrgMember, year: nat) {
    m.dateJoined.year == year
  }

  /** `.filter(date_joined__year=year).values("student").distinct()`: the
      primary keys of the students with a membership joined in `year`. */
  function JoinedStudents(members: seq<OrgMember>, year: nat): (pks: set<nat>)
    ensures forall pk :: pk in pks <==>
      exists m :: m in members && JoinedIn(m, year) && m.student.pk == pk
  {
    set m | m in members && JoinedIn(m, year) :: m.student.pk
  }

  /** The set of students does not depend on how the rows are split. */
  lemma {:induction false} JoinedStudentsSplit(a: seq<OrgMember>, b: seq<OrgMember>, year: nat)
    ensures JoinedStudents(a + b, year) == JoinedStudents(a, year) + JoinedStudents(b, year)
  {
  }

  /** `.count()` of the distinct students. */
  function StudentsJoinedThisYear(members: seq<OrgMember>, year: nat): (count: nat)
    ensures count <= RowsJoinedIn(members, year)
    ensures count == 0 <==> forall m :: m in members ==> !JoinedIn(m, year)
  {
    CountAtMostRows(members, year);
    assert forall m :: m in members && JoinedIn(m, year) ==> m.student.pk in JoinedStudents(members, year);
    |JoinedStudents(members, year)|
  }

  /** The number of membership rows joined in `year`, duplicates included. */
  function RowsJoinedIn(members: seq<OrgMember>, year: nat): (n: nat)
    ensures n <= |members|
  {
    if members == [] then 0
    else RowsJoinedIn(members[..|members| - 1], year)
         + (if JoinedIn(members[|members| - 1], year) then 1 else 0)
  }

  lemma JoinedStudentsSnoc(members: seq<OrgMember>, year: nat)
    requires members != []
    ensures JoinedStudents(members, year) ==
      JoinedStudents(members[..|members| - 1], year)
      + (if JoinedIn(members[|members| - 1], year) then {members[|members| - 1].student.pk} else {})
  {
  }

  /** The distinct count never exceeds the number of rows joined that
      year. */
  lemma {:induction false} CountAtMostRows(members: seq<OrgMember>, year: nat)
    ensures |JoinedStudents(members, year)| <= RowsJoinedIn(members, year)
  {
    if members != [] {
      CountAtMostRows(members[..|members| - 1], year);
      JoinedStudentsSnoc(members, year);
    }
  }

  /** When no student has two memberships joined that year, the count is
      exactly the number of such rows. */
  lemma {:induction false} CountEqualsRowsWhenDistinct(members: seq<OrgMember>, year: nat)
    requires forall i, j :: 0 <= i < j < |members| && JoinedIn(members[i], year) && JoinedIn(members[j], year)
               ==> members[i].student.pk != members[j].student.pk
    ensures StudentsJoinedThisYear(members, year) == RowsJoinedIn(members, year)
  {
    if members != [] {
      var init, last := members[..|members| - 1], members[|members| - 1];
      CountEqualsRowsWhenDistinct(init, year);
      JoinedStudentsSnoc(members, year);
      if JoinedIn(last, year) {
        assert last.student.pk !in JoinedStudents(init, year);
      }
    }
  }

  /** A student who already joined an organization this year is not counted
      again for a further membership joined the same year. */
  lemma RepeatJoinCountedOnce(members: seq<OrgMember>, year: nat, m: OrgMember)
    requires JoinedIn(m, year)
    requires exists prior :: prior in members && JoinedIn(prior, year) && prior.student.pk == m.student.pk
    ensures StudentsJoinedThisYear(members + [m], year) == StudentsJoinedThisYear(members, year)
  {
    JoinedStudentsSnoc(members + [m], year);
    assert (members + [m])[..|members|] == members;
    var prior :| prior in members && JoinedIn(prior, year) && prior.student.pk == m.student.pk;
    assert m.student.pk in JoinedStudents(members, year);
    assert JoinedStudents(members + [m], year) == JoinedStudents(members, year) + {m.student.pk};
    assert JoinedStudents(members + [m], year) == JoinedStudents(members, year);
  }

  /** Memberships joined in other years do not affect the count. */
  lemma OtherYearsIgnored(members: seq<OrgMember>, year: nat, m: OrgMember)
    requires !JoinedIn(m, year)
    ensures StudentsJoinedThisYear(members + [m], year) == StudentsJoinedThisYear(members, year)
  {
    JoinedStudentsSnoc(members + [m], year);
    assert (members + [m])[..|members|] == members;
  }

  /** Three students with one membership each this year and a further
      membership from the year before give a count of 3, not 4. */
  lemma ThreeStudentsThisYear(s1: Student, s2: Student, s3: Student, org: Organization)
    requires s1.pk == 1 && s2.pk == 2 && s3.pk == 3
    ensures StudentsJoinedThisYear([
      OrgMember(s1, org, Date(2025, 3, 1)),
      OrgMember(s2, org, Date(2025, 6, 15)),
      OrgMember(s3, org, Date(2025, 9, 30)),
      OrgMember(s1, org, Date(2024, 11, 2))], 2025) == 3
  {
    var thisYear := [
      OrgMember(s1, org, Date(2025, 3, 1)),
      OrgMember(s2, org, Date(2025, 6, 15)),
      OrgMember(s3, org, Date(2025, 9, 30))];
    var lastYear := OrgMember(s1, org, Date(2024, 11, 2));
    OtherYearsIgnored(thisYear, 2025, lastYear);
    CountEqualsRowsWhenDistinct(thisYear, 2025);
    assert thisYear[..2][..1][..0] == [];
    assert thisYear[..2] == thisYear[..|thisYear| - 1] && thisYear[..2][..1] == thisYear[..2][..|thisYear[..2]| - 1];
    assert RowsJoinedIn(thisYear[..2][..1], 2025) == 1;
    assert RowsJoinedIn(thisYear[..2], 2025) == 2;
    assert RowsJoinedIn(thisYear, 2025) == 3;
    assert thisYear + [lastYear] == [
      OrgMember(s1, org, Date(2025, 3, 1)),
      OrgMember(s2, org, Date(2025, 6, 15)),
      OrgMember(s3, org, Date(2025, 9, 30)),
      OrgMember(s1, org, Date(2024, 11, 2))];
  }
}
