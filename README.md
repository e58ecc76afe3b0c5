# Student-organization records: query logic

This project models the request-to-query logic of a Django records
application for colleges, programs, students, organizations and
organization memberships (`projectsite/studentorg/views.py`):

- how the membership and program lists turn the `sort_by` and `sort_order`
  query parameters into sort keys (`get_ordering`), and what those keys mean
  for the order of the listed rows;
- the `q` search filter of each of the five list views (`get_queryset`):
  an absent or empty term lists every row, otherwise a row is kept when the
  term occurs, ignoring case, in one of the view's fields;
- the dashboard's count of distinct students who joined an organization in
  the current year;
- the fixed page size of 5 rows used by every list;
- the deployment webhook's authorization guard, its migrate-only-when-needed
  rule and which commands run before it answers.

Everything is a pure function over values. Database tables are sequences
of rows. A foreign key is the referenced row embedded in the record. Query
parameters are `Option<string>`. Django's `icontains` is a substring test
after ASCII lower-casing of both sides. The `__year`, `__month` and `__day`
lookups compare with the decimal text of the extracted number, which has no
leading zero. The current year, the `DEPLOY_TOKEN` environment variable, the
output of `git diff --name-only origin/main`, and which command fails are
all parameters.

Modules: `Request` (query parameters), `Text` (case-insensitive substring,
decimal text), `Records` (the five row types), `Search` (the five filters),
`Ordering` (sort-key resolution and comparison), `Dashboard`, `Pagination`,
`Deploy`.

## Model

| member | source | states |
|---|---|---|
| `Text.Contains` | projectsite/studentorg/views.py:62 | the scan answers true exactly when the needle occurs as a contiguous window of the text |
| `Text.DecimalText` | projectsite/studentorg/views.py:170-172 | the text of a date part is non-empty, all digits, without a leading zero, and one digit exactly for numbers below 10 |
| `Text.DecimalRoundTrip` | projectsite/studentorg/views.py:170-172 | reading the decimal text back gives the number |
| `Text.DecimalTextInjective` | projectsite/studentorg/views.py:170-172 | two different numbers never have the same decimal text |
| `Text.LowerDecimalText` | projectsite/studentorg/views.py:170-172 | case folding leaves decimal text unchanged, so only the term's case matters in date matches |
| `Search.Keep` | projectsite/studentorg/views.py:118-122 | the filter keeps only rows satisfying the condition, keeps every such row, and never grows the list |
| `Search.KeepEmbeds` | projectsite/studentorg/views.py:118-122 | the filter's result is the input's rows at exactly the matching positions, in increasing order |
| `Search.KeepPreservesOrder` | projectsite/studentorg/views.py:113-123 | any order relation between earlier and later input rows still holds in the filtered rows |
| `Search.SearchOrganizations` | projectsite/studentorg/views.py:113-123 | no term or an empty term returns the rows unchanged; otherwise an organization is listed iff the term occurs, ignoring case, in its name, description or college name; the listed rows are exactly the matching rows, in their original order |
| `Search.SearchOrgMembers` | projectsite/studentorg/views.py:163-176 | no term or an empty term returns the rows unchanged; otherwise a membership is listed iff the term occurs, ignoring case, in the student's last or first name, in the decimal text of the join year, month or day, or in the organization name; the listed rows are exactly the matching rows, in their original order |
| `Search.SearchStudents` | projectsite/studentorg/views.py:202-213 | no term or an empty term returns the rows unchanged; otherwise a student is listed iff the term occurs, ignoring case, in the last, first or middle name, the student number or the program name; the listed rows are exactly the matching rows, in their original order |
| `Search.SearchColleges` | projectsite/studentorg/views.py:239-244 | no term or an empty term returns the rows unchanged; otherwise a college is listed iff the term occurs, ignoring case, in its name; the listed rows are exactly the matching rows, in their original order |
| `Search.SearchPrograms` | projectsite/studentorg/views.py:277-287 | no term or an empty term returns the rows unchanged; otherwise a program is listed iff the term occurs, ignoring case, in its name or its college's name; the listed rows are exactly the matching rows, in their original order |
| `Search.EmptyTermFilterKeepsAll` | projectsite/studentorg/views.py:117 | for all five lists, filtering with the empty term would keep every row, so the `if q:` guard only skips a filter that would change nothing |
| `Search.EmptyTermIsNoTerm` | projectsite/studentorg/views.py:115-117 | for all five lists, `q=` (empty) lists the same rows as no `q` at all |
| `Search.SearchIdempotent` | projectsite/studentorg/views.py:163-176 | searching the membership list again with the same term changes nothing |
| `Ordering.Descending` | projectsite/studentorg/views.py:159-160 | every key gets the `-` prefix, the number of keys is unchanged, and removing the prefix gives the original key |
| `Ordering.MemberSortField` | projectsite/studentorg/views.py:150-154 | the sort field is always allowed; it is `sort_by` when that is allowed and the last name otherwise |
| `Ordering.MemberOrdering` | projectsite/studentorg/views.py:149-161 | there are two keys when sorting by last name and one otherwise; the first names the chosen field; every key names an allowed field; a key is descending iff `sort_order` is exactly `desc` |
| `Ordering.MemberOrderingDefault` | projectsite/studentorg/views.py:150-154 | an absent or unrecognised `sort_by` gives the same keys as `sort_by=student__lastname` |
| `Ordering.MemberOrderingKeys` | projectsite/studentorg/views.py:155-158 | sorting by last name gives `[student__lastname, student__firstname]`; any other allowed field is the one key |
| `Ordering.MemberOrderingDirection` | projectsite/studentorg/views.py:159-161 | `sort_order=desc` gives the ascending keys each prefixed with `-`; any other value or none gives the ascending keys |
| `Ordering.ProgramOrdering` | projectsite/studentorg/views.py:270-275 | the key is always `prog_name` or `college__college_name`, is ascending, and equals `sort_by` when that is allowed |
| `Ordering.ProgramOrderingDefault` | projectsite/studentorg/views.py:271-275 | an absent or unrecognised `sort_by` gives the same key as `sort_by=prog_name` |
| `Ordering.CompareTextTotal` | projectsite/studentorg/views.py:156 | the text order used for name keys is total: two names tie only when equal, and swapping them flips the result |
| `Ordering.CompareTextTransitive` | projectsite/studentorg/views.py:156 | the text order used for name keys is transitive, so with the previous row it is a total order |
| `Ordering.LastNameTieBreak` | projectsite/studentorg/views.py:155-160 | in a membership list sorted by last name, rows with equal last names are in first-name order, in the same direction as the last names |
| `Ordering.MemberListingOrdered` | projectsite/studentorg/views.py:163-176 | the membership search keeps the rows in the order the resolved sort keys put them |
| `Ordering.ProgramListingOrdered` | projectsite/studentorg/views.py:277-287 | the program search keeps the rows in the order the resolved sort key puts them |
| `Ordering.OrganizationListingOrdered` | projectsite/studentorg/views.py:111-123 | the organization search keeps the rows in college-name-then-name order |
| `Dashboard.JoinedStudentsSplit` | projectsite/studentorg/views.py:93-98 | the distinct students of two groups of rows together are the union of each group's distinct students, however the rows are split |
| `Dashboard.StudentsJoinedThisYear` | projectsite/studentorg/views.py:92-102 | the count never exceeds the number of memberships joined this year, and is zero iff there are none |
| `Dashboard.CountAtMostRows` | projectsite/studentorg/views.py:93-100 | the number of distinct students is at most the number of memberships joined in the year |
| `Dashboard.CountEqualsRowsWhenDistinct` | projectsite/studentorg/views.py:93-100 | when no student has two memberships joined in the year, the count equals the number of those memberships |
| `Dashboard.RepeatJoinCountedOnce` | projectsite/studentorg/views.py:97-99 | a further membership this year for a student already counted leaves the count unchanged |
| `Dashboard.OtherYearsIgnored` | projectsite/studentorg/views.py:94-96 | a membership joined in another year leaves the count unchanged |
| `Dashboard.ThreeStudentsThisYear` | projectsite/studentorg/views.py:92-102 | three students who joined this year plus one membership from last year count as 3 |
| `Pagination.PageCount` | projectsite/studentorg/views.py:147 | there is at least one page; for a non-empty list the pages hold all rows and the last page is not empty |
| `Pagination.Page` | projectsite/studentorg/views.py:147 | a page has at most 5 rows, exactly 5 unless it is the last, is non-empty for a non-empty list, and holds the consecutive rows starting at `(number - 1) * 5` |
| `Pagination.RowOnItsPage` | projectsite/studentorg/views.py:147 | row `i` is on page `i / 5 + 1` at position `i % 5` |
| `Pagination.TwelveRowsThreePages` | projectsite/studentorg/views.py:110 | twelve rows make three pages of 5, 5 and 2 rows whose concatenation is the list |
| `Deploy.Status` | projectsite/studentorg/views.py:35-79 | status 200 exactly for success, 403 exactly for a rejected caller, and 500 exactly for a failed command or any other failure |
| `Deploy.Plan` | projectsite/studentorg/views.py:43-70 | fetch, diff, pull and install come first and reload last; migrate is planned iff the changed-file list contains `migrations/`; no command is planned twice |
| `Deploy.Run` | projectsite/studentorg/views.py:42-77 | the commands run are a prefix of the plan; when a planned command fails, the run stops right after its first occurrence with the matching error; otherwise the whole plan runs and the answer is success |
| `Deploy.RunDeploy` | projectsite/studentorg/views.py:27-79 | a rejected caller gets 403 and no command runs; an accepted one runs a non-empty prefix of the plan starting with fetch; success iff accepted and no planned command fails, and then the whole plan ran; migrate runs only if the diff mentions `migrations/` |
| `Deploy.RejectedCallerRunsNothing` | projectsite/studentorg/views.py:32-35 | a missing or wrong `Authorization` header runs no command and answers 403 |
| `Deploy.UnsetTokenAcceptsBareBearer` | projectsite/studentorg/views.py:32-34 | with no `DEPLOY_TOKEN` set, the header `Bearer ` alone is accepted and the whole plan runs |

## Left out

- Create, update and delete views (views.py:126-140, 178-193, 215-230, 246-261, 289-304): they are framework configuration; validation, uniqueness and cascade rules live in models and forms that are not part of this model.
- The three table totals on the dashboard (views.py:88-90): each is the length of a table.
- Database ordering: text keys compare by character code (`CompareText`); the database's collation is not part of this model.
- Django's case-insensitive match is modelled as ASCII lower-casing; non-ASCII case folding is not modelled.
- Nullable columns: every text field is a string; a NULL field, which never matches `icontains`, is not modelled because the model definitions are not part of this model.
- `Records.Date` does not restrict month and day to calendar ranges.
- Pagination.Page: only existing page numbers are modelled; what happens for a page number past the end is handled by the framework's paginator, which is not part of this model.
- The `@require_POST` decorator on the webhook (views.py:26): a request that is not a POST is answered 405 by the framework before the header is read; the model starts at the header check.
- Deploy.RunDeploy: the commands' side effects, their working directories, logging and the error detail text are not modelled; which command fails is an input.
- `timezone.now()`: the current year is a parameter.
- Templates, `context_object_name` and logging.
