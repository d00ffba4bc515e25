/** The Employee Records tab: the enriched table projected onto the ten
    columns the record table shows. */
module EmployeeTable {
  import opened Dates
  import opened Employees

  /** One line of the record table: Employee_ID, First Name, Last Name,
      Department, Job Title, Gender, Age, Education Level, Salary and Status,
      in display order. */
  datatype EmployeeView = EmployeeView(
    employeeId: string,
    firstName: string,
    lastName: string,
    department: string,
    jobTitle: string,
    gender: string,
    age: int,
    educationLevel: string,
    salary: int,
    status: Status)

  function Project(r: Row): EmployeeView {
    EmployeeView(r.rec.employeeId, r.rec.firstName, r.rec.lastName, r.rec.department, r.rec.jobTitle,
                 r.rec.gender, r.age, r.rec.educationLevel, r.rec.salary, r.status)
  }

  /** The record table: every enriched row cut down to the shown columns, in row order. */
  function EmployeeRecords(t: seq<Row>): seq<EmployeeView> {
    seq(|t|, i requires 0 <= i < |t| => Project(t[i]))
  }

  /** The record table of a freshly enriched frame has the loaded rows in the
      loaded order; each shows its own loaded fields, the Age computed from
      its birthdate, and Terminated exactly when its termination date parsed. */
  lemma EmployeeRecordsSpec(recs: seq<Record>, today: Date)
    ensures |EmployeeRecords(EnrichAll(recs, today))| == |recs|
    ensures forall i :: 0 <= i < |recs| ==>
      var v := EmployeeRecords(EnrichAll(recs, today))[i];
      && v.employeeId == recs[i].employeeId && v.firstName == recs[i].firstName
      && v.lastName == recs[i].lastName && v.department == recs[i].department
      && v.jobTitle == recs[i].jobTitle && v.gender == recs[i].gender
      && v.educationLevel == recs[i].educationLevel && v.salary == recs[i].salary
      && v.age == AgeYears(recs[i].birthdate, today)
      && (v.status == Terminated <==> recs[i].termdate.Some?)
  {
    EnrichAllSpec(recs, today);
  }
}
