/** Sort-order resolution of the list views (`get_ordering` and the static
    `ordering` attribute), and what a list of sort keys means for the order
    of the rows the database returns. */
module Ordering {
  import opened Request
  import opened Records
  import Search

  // ---------------------------------------------------------------------
  // Sort keys
  // ---------------------------------------------------------------------

  const LastNameKey: string := "student__lastname"
  const FirstNameKey: string := "student__firstname"
  const DateJoinedKey: string := "date_joined"

  /** The `sort_by` values the membership list accepts. */
  const MemberSortFields: seq<string> := [LastNameKey, FirstNameKey, DateJoinedKey]

  const ProgNameKey: string := "prog_name"
  const CollegeNameKey: string := "college__college_name"

  /** The `sort_by` values the program list accepts. */
  const ProgramSortFields: seq<string> := [ProgNameKey, CollegeNameKey]

  /** `OrganizationList.ordering`: by college name, then organization name. */
  const OrganizationOrdering: seq<string> := [CollegeNameKey, "name"]

  /** A key written `-field` sorts by `field` in descending order. */
  predicate IsDescending(key: string) {
    |key| > 0 && key[0] == '-'
  }

  /** The field a sort key names, without its direction prefix. */
  function FieldOf(key: string): string {
    if IsDescending(key) then key[1..] else key
  }

  /** `["-" + field for field in keys]`. */
  function Descending(keys: seq<string>): (r: seq<string>)
    ensures |r| == |keys|
    ensures forall i :: 0 <= i < |r| ==> IsDescending(r[i]) && FieldOf(r[i]) == keys[i]
  {
    if keys == [] then [] else ["-" + keys[0]] + Descending(keys[1..])
  }

  // ---------------------------------------------------------------------
  // OrgMemberListView.get_ordering
  // ---------------------------------------------------------------------

  /** The field the membership list actually sorts by: `sort_by`, or the
      last name when it is absent or not allowed. */
  function MemberSortField(sortBy: Option<string>): (field: string)
    ensures field in MemberSortFields
    ensures sortBy.Some? && sortBy.value in MemberSortFields ==> field == sortBy.value
    ensures (sortBy.None? || sortBy.value !in MemberSortFields) ==> field == LastNameKey
  {
    var field := GetOr(sortBy, LastNameKey);
    if field in MemberSortFields then field else LastNameKey
  }

  function MemberOrdering(sortBy: Option<string>, sortOrder: Option<string>): (keys: seq<string>)
    ensures |keys| == (if MemberSortField(sortBy) == LastNameKey then 2 else 1)
    ensures FieldOf(keys[0]) == MemberSortField(sortBy)
    ensures forall i :: 0 <= i < |keys| ==>
      && FieldOf(keys[i]) in MemberSortFields
      && (IsDescending(keys[i]) <==> sortOrder == Some("desc"))
  {
    var field := MemberSortField(sortBy);
    var ordering := if field == LastNameKey then [LastNameKey, FirstNameKey] else [field];
    if GetOr(sortOrder, "asc") == "desc" then Descending(ordering) else ordering
  }

  /** An absent or unrecognised `sort_by` orders exactly like
      `sort_by=student__lastname`. */
  lemma MemberOrderingDefault(sortBy: Option<string>, sortOrder: Option<string>)
    requires sortBy.None? || sortBy.value !in MemberSortFields
    ensures MemberOrdering(sortBy, sortOrder) == MemberOrdering(Some(LastNameKey), sortOrder)
  {
  }

  /** Ordering by last name always breaks ties by first name; any other
      allowed field is the only key. */
  lemma MemberOrderingKeys(sortBy: Option<string>)
    ensures MemberSortField(sortBy) == LastNameKey ==>
      MemberOrdering(sortBy, None) == [LastNameKey, FirstNameKey]
    ensures MemberSortField(sortBy) != LastNameKey ==>
      MemberOrdering(sortBy, None) == [MemberSortField(sortBy)]
  {
  }

  /** `sort_order=desc` prefixes every key with `-` and changes nothing
      else; any other value (or none) gives the ascending keys. */
  lemma MemberOrderingDirection(sortBy: Option<string>, sortOrder: Option<string>)
    ensures sortOrder == Some("desc") ==>
      MemberOrdering(sortBy, sortOrder) == Descending(MemberOrdering(sortBy, None))
    ensures sortOrder != Some("desc") ==>
      MemberOrdering(sortBy, sortOrder) == MemberOrdering(sortBy, None)
  {
  }

  // ---------------------------------------------------------------------
  // ProgramListView.get_ordering
  // ---------------------------------------------------------------------

  function ProgramOrdering(sortBy: Option<string>): (key: string)
    ensures key in ProgramSortFields
    ensures !IsDescending(key)
    ensures sortBy.Some? && sortBy.value in ProgramSortFields ==> key == sortBy.value
  {
    if sortBy.Some? && sortBy.value in ProgramSortFields then sortBy.value else ProgNameKey
  }

  /** An absent or unrecognised `sort_by` orders exactly like
      `sort_by=prog_name`. */
  lemma ProgramOrderingDefault(sortBy: Option<string>)
    requires sortBy.None? || sortBy.value !in ProgramSortFields
    ensures ProgramOrdering(sortBy) == ProgramOrdering(Some(ProgNameKey))
  {
  }

  // ---------------------------------------------------------------------
  // What a list of sort keys means
  // ---------------------------------------------------------------------

  /** Three-way comparison of text by character code, shorter prefix first. */
  function CompareText(a: string, b: string): (c: int)
    ensures -1 <= c <= 1
  {
    if a == [] && b == [] then 0
    else if a == [] then -1
    else if b == [] then 1
    else if a[0] < b[0] then -1
    else if a[0] > b[0] then 1
    else CompareText(a[1..], b[1..])
  }

  function CompareNat(a: nat, b: nat): (c: int)
    ensures -1 <= c <= 1
  {
    if a < b then -1 else if a > b then 1 else 0
  }

  /** Dates compare by year, then month, then day. */
  function CompareDate(a: Date, b: Date): (c: int)
    ensures -1 <= c <= 1
  {
    var y := CompareNat(a.year, b.year);
    if y != 0 then y else
    var m := CompareNat(a.month, b.month);
    if m != 0 then m else CompareNat(a.day, b.day)
  }

  /** A string ties only with itself, and swapping the arguments flips
      the sign (antisymmetry). */
  lemma {:induction false} CompareTextTotal(a: string, b: string)
    ensures CompareText(a, b) == 0 <==> a == b
    ensures CompareText(b, a) == -CompareText(a, b)
  {
    if a != [] && b != [] && a[0] == b[0] {
      CompareTextTotal(a[1..], b[1..]);
      if a[1..] == b[1..] {
        assert a == [a[0]] + a[1..] && b == [b[0]] + b[1..];
      }
    }
  }

  /** Text comparison is transitive; with `CompareTextTotal` it is a total
      order. */
  lemma {:induction false} CompareTextTransitive(a: string, b: string, c: string)
    requires CompareText(a, b) <= 0 && CompareText(b, c) <= 0
    ensures CompareText(a, c) <= 0
  {
    if a != [] && b != [] && c != [] && a[0] == b[0] == c[0] {
      CompareTextTransitive(a[1..], b[1..], c[1..]);
    }
  }

  /** Comparison of two membership rows on one field; a field the rows do
      not have compares equal. */
  function CompareMembers(field: string, a: OrgMember, b: OrgMember): int {
    if field == LastNameKey then CompareText(a.student.lastname, b.student.lastname)
    else if field == FirstNameKey then CompareText(a.student.firstname, b.student.firstname)
    else if field == DateJoinedKey then CompareDate(a.dateJoined, b.dateJoined)
    else 0
  }

  function ComparePrograms(field: string, a: Program, b: Program): int {
    if field == ProgNameKey then CompareText(a.progName, b.progName)
    else if field == CollegeNameKey then CompareText(a.college.collegeName, b.college.collegeName)
    else 0
  }

  function CompareOrganizations(field: string, a: Organization, b: Organization): int {
    if field == CollegeNameKey then CompareText(a.college.collegeName, b.college.collegeName)
    else if field == "name" then CompareText(a.name, b.name)
    else 0
  }

  /** Row `a` may be listed before row `b` under `keys`: the first key on
      which they differ puts `a` first, or they agree on every key. */
  predicate Precedes<T>(keys: seq<string>, compare: (string, T, T) -> int, a: T, b: T) {
    if keys == [] then true
    else
      var c := compare(FieldOf(keys[0]), a, b);
      var d := if IsDescending(keys[0]) then -c else c;
      if d != 0 then d < 0 else Precedes(keys[1..], compare, a, b)
  }

  /** The rows are listed in the order `keys` asks for. */
  ghost predicate OrderedBy<T>(keys: seq<string>, compare: (string, T, T) -> int, rows: seq<T>) {
    forall i, j :: 0 <= i < j < |rows| ==> Precedes(keys, compare, rows[i], rows[j])
  }

  /** In the membership list sorted by last name, rows with the same last
      name are listed by first name, in the same direction. */
  lemma LastNameTieBreak(sortBy: Option<string>, sortOrder: Option<string>, rows: seq<OrgMember>, i: nat, j: nat)
    requires MemberSortField(sortBy) == LastNameKey
    requires OrderedBy(MemberOrdering(sortBy, sortOrder), CompareMembers, rows)
    requires i < j < |rows| && rows[i].student.lastname == rows[j].student.lastname
    ensures sortOrder != Some("desc") ==>
      CompareText(rows[i].student.firstname, rows[j].student.firstname) <= 0
    ensures sortOrder == Some("desc") ==>
      CompareText(rows[i].student.firstname, rows[j].student.firstname) >= 0
  {
    var keys := MemberOrdering(sortBy, sortOrder);
    var a, b := rows[i], rows[j];
    CompareTextTotal(a.student.lastname, b.student.lastname);
    assert CompareMembers(FieldOf(keys[0]), a, b) == 0;
    assert Precedes(keys, CompareMembers, a, b);
    var rest := keys[1..];
    assert Precedes(rest, CompareMembers, a, b);
    assert rest[1..] == [] && FieldOf(rest[0]) == FirstNameKey;
    assert CompareMembers(FieldOf(rest[0]), a, b) == CompareText(a.student.firstname, b.student.firstname);
  }

  // ---------------------------------------------------------------------
  // Search keeps the listing's order
  // ---------------------------------------------------------------------

  /** `super().get_queryset()` returns the rows already ordered; the search
      filter that follows leaves them in that order. */
  lemma MemberListingOrdered(sortBy: Option<string>, sortOrder: Option<string>, q: Option<string>, rows: seq<OrgMember>)
    requires OrderedBy(MemberOrdering(sortBy, sortOrder), CompareMembers, rows)
    ensures OrderedBy(MemberOrdering(sortBy, sortOrder), CompareMembers, Search.SearchOrgMembers(q, rows))
  {
  }

  lemma ProgramListingOrdered(sortBy: Option<string>, q: Option<string>, rows: seq<Program>)
    requires OrderedBy([ProgramOrdering(sortBy)], ComparePrograms, rows)
    ensures OrderedBy([ProgramOrdering(sortBy)], ComparePrograms, Search.SearchPrograms(q, rows))
  {
  }

  lemma OrganizationListingOrdered(q: Option<string>, rows: seq<Organization>)
    requires OrderedBy(OrganizationOrdering, CompareOrganizations, rows)
    ensures OrderedBy(OrganizationOrdering, CompareOrganizations, Search.SearchOrganizations(q, rows))
  {
  }
}
