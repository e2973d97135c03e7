/**
  * The records of the four tables and the enumerated column domains.
  * Every enumerated column is a datatype here; its text form is what the
  * database stores and what requests and responses carry, and the Parse
  * functions model the CHECK constraints: a text that parses to nothing is
  * one the database refuses.
  */
module Types {
  import opened Common

  // ---------------------------------------------------------------------
  // Program phase: CHECK(phase IN (...)), seven values
  // ---------------------------------------------------------------------

  datatype Phase = Discovery | Preclinical | PhaseI | PhaseII | PhaseIII | Filed | Approved

  function PhaseName(p: Phase): string
  {
    match p
    case Discovery => "Discovery"
    case Preclinical => "Preclinical"
    case PhaseI => "Phase I"
    case PhaseII => "Phase II"
    case PhaseIII => "Phase III"
    case Filed => "Filed"
    case Approved => "Approved"
  }

  /** Accepts exactly the seven phase names, each as its own phase. */
  function ParsePhase(s: string): (r: Option<Phase>)
    ensures forall p :: PhaseName(p) == s <==> r == Some(p)
  {
    if s == "Discovery" then Some(Discovery)
    else if s == "Preclinical" then Some(Preclinical)
    else if s == "Phase I" then Some(PhaseI)
    else if s == "Phase II" then Some(PhaseII)
    else if s == "Phase III" then Some(PhaseIII)
    else if s == "Filed" then Some(Filed)
    else if s == "Approved" then Some(Approved)
    else None
  }

  // ---------------------------------------------------------------------
  // Program status: CHECK(status IN (...)), DEFAULT 'Active'
  // ---------------------------------------------------------------------

  datatype ProgramStatus = Active | OnHold | Terminated | Completed

  function ProgramStatusName(st: ProgramStatus): string
  {
    match st
    case Active => "Active"
    case OnHold => "On Hold"
    case Terminated => "Terminated"
    case Completed => "Completed"
  }

  function ParseProgramStatus(s: string): (r: Option<ProgramStatus>)
    ensures forall st :: ProgramStatusName(st) == s <==> r == Some(st)
  {
    if s == "Active" then Some(Active)
    else if s == "On Hold" then Some(OnHold)
    else if s == "Terminated" then Some(Terminated)
    else if s == "Completed" then Some(Completed)
    else None
  }

  // ---------------------------------------------------------------------
  // Study status: CHECK(status IN (...)), DEFAULT 'Planned'
  // ---------------------------------------------------------------------

  datatype StudyStatus = Planned | Recruiting | StudyActive | StudyCompleted | StudyTerminated | Suspended

  function StudyStatusName(st: StudyStatus): string
  {
    match st
    case Planned => "Planned"
    case Recruiting => "Recruiting"
    case StudyActive => "Active"
    case StudyCompleted => "Completed"
    case StudyTerminated => "Terminated"
    case Suspended => "Suspended"
  }

  function ParseStudyStatus(s: string): (r: Option<StudyStatus>)
    ensures forall st :: StudyStatusName(st) == s <==> r == Some(st)
  {
    if s == "Planned" then Some(Planned)
    else if s == "Recruiting" then Some(Recruiting)
    else if s == "Active" then Some(StudyActive)
    else if s == "Completed" then Some(StudyCompleted)
    else if s == "Terminated" then Some(StudyTerminated)
    else if s == "Suspended" then Some(Suspended)
    else None
  }

  // ---------------------------------------------------------------------
  // Milestone category and status
  // ---------------------------------------------------------------------

  datatype Category = Regulatory | Clinical | Manufacturing | Commercial | Other

  function CategoryName(c: Category): string
  {
    match c
    case Regulatory => "Regulatory"
    case Clinical => "Clinical"
    case Manufacturing => "Manufacturing"
    case Commercial => "Commercial"
    case Other => "Other"
  }

  function ParseCategory(s: string): (r: Option<Category>)
    ensures forall c :: CategoryName(c) == s <==> r == Some(c)
  {
    if s == "Regulatory" then Some(Regulatory)
    else if s == "Clinical" then Some(Clinical)
    else if s == "Manufacturing" then Some(Manufacturing)
    else if s == "Commercial" then Some(Commercial)
    else if s == "Other" then Some(Other)
    else None
  }

  datatype MilestoneStatus = Pending | InProgress | MilestoneCompleted | Delayed | Cancelled

  function MilestoneStatusName(st: MilestoneStatus): string
  {
    match st
    case Pending => "Pending"
    case InProgress => "In Progress"
    case MilestoneCompleted => "Completed"
    case Delayed => "Delayed"
    case Cancelled => "Cancelled"
  }

  function ParseMilestoneStatus(s: string): (r: Option<MilestoneStatus>)
    ensures forall st :: MilestoneStatusName(st) == s <==> r == Some(st)
  {
    if s == "Pending" then Some(Pending)
    else if s == "In Progress" then Some(InProgress)
    else if s == "Completed" then Some(MilestoneCompleted)
    else if s == "Delayed" then Some(Delayed)
    else if s == "Cancelled" then Some(Cancelled)
    else None
  }

  // ---------------------------------------------------------------------
  // User role: CHECK(role IN ('admin', 'portfolio_manager', 'viewer'))
  // ---------------------------------------------------------------------

  datatype Role = Admin | PortfolioManager | Viewer

  function RoleName(r: Role): string
  {
    match r
    case Admin => "admin"
    case PortfolioManager => "portfolio_manager"
    case Viewer => "viewer"
  }

  function ParseRole(s: string): (r: Option<Role>)
    ensures forall role :: RoleName(role) == s <==> r == Some(role)
  {
    if s == "admin" then Some(Admin)
    else if s == "portfolio_manager" then Some(PortfolioManager)
    else if s == "viewer" then Some(Viewer)
    else None
  }

  // ---------------------------------------------------------------------
  // Rows. Nullable columns are Option; ids are opaque text (uuids);
  // timestamps are the text datetime('now') produced when the row was written.
  // ---------------------------------------------------------------------

  datatype User = User(
    id: string,
    username: string,
    passwordHash: string,
    role: Role,
    fullName: string,
    email: Option<string>,
    createdAt: string,
    updatedAt: string)

  datatype Program = Program(
    id: string,
    name: string,
    code: string,
    therapeuticArea: string,
    phase: Phase,
    status: ProgramStatus,
    indication: string,
    moleculeType: Option<string>,
    target: Option<string>,
    description: Option<string>,
    lead: Option<string>,
    startDate: Option<string>,
    expectedEndDate: Option<string>,
    createdAt: string,
    updatedAt: string)

  /** A study's phase is free text, not the program phase enumeration. */
  datatype Study = Study(
    id: string,
    programId: string,
    name: string,
    protocolNumber: string,
    phase: string,
    status: StudyStatus,
    targetEnrollment: int,
    currentEnrollment: int,
    startDate: Option<string>,
    endDate: Option<string>,
    sitesCount: int,
    countries: Option<string>,
    description: Option<string>,
    createdAt: string,
    updatedAt: string)

  datatype Milestone = Milestone(
    id: string,
    programId: string,
    studyId: Option<string>,
    title: string,
    description: Option<string>,
    category: Category,
    status: MilestoneStatus,
    plannedDate: Option<string>,
    actualDate: Option<string>,
    createdAt: string,
    updatedAt: string)

  /** ORDER BY start_date */
  function StartDateKey(s: Study): Option<string>
  {
    s.startDate
  }

  /** ORDER BY planned_date */
  function PlannedDateKey(m: Milestone): Option<string>
  {
    m.plannedDate
  }

  /** `x || null` for a text field of a request body ("" stands for absent). */
  function NullIfEmpty(s: string): (r: Option<string>)
    ensures r.None? <==> s == ""
    ensures r.Some? ==> r.value == s
  {
    if s == "" then None else Some(s)
  }

  /** COALESCE(x || NULL, column) on a NOT NULL text column: "" keeps the stored value. */
  function Coalesce(x: string, column: string): string
  {
    if x == "" then column else x
  }

  /** COALESCE(x || NULL, column) on a nullable text column: it can be set, never cleared. */
  function CoalesceOpt(x: string, column: Option<string>): Option<string>
  {
    if x == "" then column else Some(x)
  }

  /** COALESCE(x ?? NULL, column) on a number: only an absent value keeps the stored one, 0 overwrites. */
  function CoalesceNum(x: Option<int>, column: int): int
  {
    if x.None? then column else x.value
  }
}
