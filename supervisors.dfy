/** The supervisor account document (`supervisors` collection) and the queries made on it. */
module Supervisors {
  import opened Nullable
  import opened Passwords
  import Tables

  datatype SupervisorStatus = Pending | Approved | Rejected | Suspended

  datatype SupervisorRole = StandardSupervisor | SeniorSupervisor | Admin

  /** A supervisor. Supervisors are not Spring Security principals. */
  datatype Supervisor = Supervisor(
    id: string,
    firstName: Option<string>,
    lastName: Option<string>,
    email: string,
    phone: Option<string>,
    institution: Option<string>,
    department: Option<string>,
    qualifications: Option<string>,
    experience: Option<string>,
    specialization: Option<seq<string>>,
    password: PasswordHash,
    status: SupervisorStatus,
    isActive: bool,
    createdAt: int,
    updatedAt: int,
    lastLoginAt: Option<int>,
    employeeId: Option<string>,
    profileImage: Option<string>,
    role: SupervisorRole)

  function SupervisorId(s: Supervisor): string {
    s.id
  }

  /** `findByEmail` */
  function FindByEmail(rows: seq<Supervisor>, email: string): (r: Option<nat>)
    ensures r.Some? ==> r.value < |rows| && rows[r.value].email == email
    ensures r.None? <==> forall k :: 0 <= k < |rows| ==> rows[k].email != email
  {
    Tables.IndexWhere(rows, (s: Supervisor) => s.email == email)
  }
}
