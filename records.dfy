/** The records the application stores and edits. Optional fields are `Option`
    values: `None` stands for a missing key, `undefined` or `null`. Dates are
    kept as the strings the forms produce (`'YYYY-MM-DD'` or `''`); the risk
    computation turns them into times in milliseconds through a parsing
    function. */
module Records {
  import opened Base

  /** A client artifact the discovery phase waits for. */
  datatype Artifact = Artifact(
    id: string,
    name: Option<string>,
    owner: Option<string>,
    dueDate: Option<string>,
    receivedDate: Option<string>,
    fileUrl: Option<string>)

  /** A planned development release. */
  datatype Release = Release(
    id: Option<string>,
    name: Option<string>,
    startDate: Option<string>,
    endDate: Option<string>,
    actualEndDate: Option<string>,
    notes: Option<string>)

  datatype Discovery = Discovery(
    targetCompleteDate: Option<string>,
    actualCompleteDate: Option<string>,
    notes: Option<string>,
    requiredArtifacts: Option<seq<Artifact>>)

  datatype Development = Development(
    startDate: Option<string>,
    targetReleaseDate: Option<string>,
    actualReleaseDate: Option<string>,
    releases: Option<seq<Release>>)

  /** `{}`: a phase object with no fields set. */
  const NoDiscovery := Discovery(None, None, None, None)
  const NoDevelopment := Development(None, None, None, None)

  /** A person assigned to a project, with an optional allocation percentage. */
  datatype Assignment = Assignment(
    id: Option<string>,
    name: Option<string>,
    role: Option<string>,
    allocation: Option<int>)

  /** One meeting-minutes record of a project. */
  datatype Minute = Minute(
    id: Option<string>,
    date: Option<string>,
    title: string,
    notes: string,
    createdAt: Option<string>)

  datatype Project = Project(
    id: string,
    name: string,
    client: string,
    status: string,
    priority: string,
    onHoldReason: string,
    notes: string,
    discovery: Option<Discovery>,
    development: Option<Development>,
    teamMembers: Option<seq<Assignment>>,
    meetingMinutes: Option<seq<Minute>>,
    createdAt: Option<string>,
    updatedAt: Option<string>)

  /** The fields a caller passes to create or update a project; a `None`
      field is one the caller's object does not carry. */
  datatype ProjectInput = ProjectInput(
    id: Option<string>,
    name: Option<string>,
    client: Option<string>,
    status: Option<string>,
    priority: Option<string>,
    onHoldReason: Option<string>,
    notes: Option<string>,
    discovery: Option<Discovery>,
    development: Option<Development>,
    teamMembers: Option<seq<Assignment>>,
    meetingMinutes: Option<seq<Minute>>)

  /** A person on the global team list. */
  datatype Member = Member(
    id: string,
    name: string,
    email: string,
    role: string,
    department: string,
    createdAt: string,
    updatedAt: string)

  /** The fields a caller passes to create or update a team member. */
  datatype MemberInput = MemberInput(
    id: Option<string>,
    name: Option<string>,
    email: Option<string>,
    role: Option<string>,
    department: Option<string>)
}
