/** The five record types the list views query. A foreign key is modelled
    by embedding the referenced row, which is what the views read through
    `college__college_name`, `program__prog_name`, `student__lastname` and
    `organization__name`. */
module Records {

  /** A calendar date, as Django's `DateField` yields it. */
  datatype Date = Date(year: nat, month: nat, day: nat)

  datatype College = College(collegeName: string)

  datatype Program = Program(progName: string, college: College)

  /** `pk` is the database primary key (what `.values("student")` reads);
      `studentId` is the school's own student number. */
  datatype Student = Student(
    pk: nat,
    studentId: string,
    lastname: string,
    firstname: string,
    middlename: string,
    program: Program)

  datatype Organization = Organization(name: string, description: string, college: College)

  /** Membership of a student in an organization since `dateJoined`. */
  datatype OrgMember = OrgMember(student: Student, organization: Organization, dateJoined: Date)
}
