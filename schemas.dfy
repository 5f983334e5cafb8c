/** The request and response shapes the handlers accept and return:
    submission create/update/response, review and annotation input and
    output, registration, login and the public user view. */
module Schemas {
  import opened Common
  import opened Models

  // ---------------------------------------------------------------- submissions

  /** Create payload: the four text fields are required; `tags` may be
      omitted (an empty list) or sent as null. */
  datatype SubmissionCreate = SubmissionCreate(
    title: string,
    description: string,
    codeContent: string,
    language: string,
    tags: Option<seq<string>>)

  const DefaultTags: Option<seq<string>> := Some([])

  /** Update payload: every field optional, `None` meaning "leave as is".
      Language, status and owner have no field here. */
  datatype SubmissionUpdate = SubmissionUpdate(
    title: Option<string>,
    description: Option<string>,
    codeContent: Option<string>)

  const EmptyUpdate := SubmissionUpdate(None, None, None)

  /** The update handler's field assignments: each field sent replaces the
      stored one, each field left out keeps it. */
  function ApplyUpdate(s: Submission, u: SubmissionUpdate): (r: Submission)
    ensures r.id == s.id && r.userId == s.userId && r.language == s.language
    ensures r.status == s.status && r.videoUrl == s.videoUrl
    ensures r.title == (if u.title.Some? then u.title.value else s.title)
    ensures r.description == (if u.description.Some? then u.description.value else s.description)
    ensures r.codeContent == (if u.codeContent.Some? then u.codeContent.value else s.codeContent)
  {
    var s1 := if u.title.Some? then s.(title := u.title.value) else s;
    var s2 := if u.description.Some? then s1.(description := u.description.value) else s1;
    if u.codeContent.Some? then s2.(codeContent := u.codeContent.value) else s2
  }

  /** An update with no field set changes nothing, and applying the same
      update twice is the same as applying it once. */
  lemma ApplyUpdateLaws(s: Submission, u: SubmissionUpdate)
    ensures ApplyUpdate(s, EmptyUpdate) == s
    ensures ApplyUpdate(ApplyUpdate(s, u), u) == ApplyUpdate(s, u)
  {
  }

  /** The update response: id, title and status (the timestamp is not
      modelled). */
  datatype SubmissionResponse = SubmissionResponse(id: int, title: string, status: Status)

  function ToSubmissionResponse(s: Submission): (r: SubmissionResponse)
    ensures r.id == s.id && r.title == s.title && r.status == s.status
  {
    SubmissionResponse(s.id, s.title, s.status)
  }

  // ---------------------------------------------------------------- reviews

  /** An input annotation; its line number may be omitted. */
  datatype AnnotationCreate = AnnotationCreate(commentText: string, lineNumber: Option<int>)

  /** Review payload: any integer rating; `annotations` may be omitted (an
      empty list) or sent as null. */
  datatype ReviewCreate = ReviewCreate(
    submissionId: int,
    overallComment: string,
    rating: int,
    annotations: Option<seq<AnnotationCreate>>)

  const DefaultAnnotations: Option<seq<AnnotationCreate>> := Some([])

  /** An output annotation: the line number is a required integer. */
  datatype AnnotationOut = AnnotationOut(id: int, lineNumber: int, commentText: string)

  datatype ReviewerOut = ReviewerOut(id: int, name: string)

  /** A review response: the review's columns, the reviewer and its
      annotations. */
  datatype ReviewResponse = ReviewResponse(
    id: int,
    submissionId: int,
    overallComment: string,
    rating: int,
    reviewer: ReviewerOut,
    annotations: seq<AnnotationOut>)

  function ToAnnotationOut(a: Annotation): (r: AnnotationOut)
    ensures r.id == a.id && r.lineNumber == a.lineNumber && r.commentText == a.commentText
  {
    AnnotationOut(a.id, a.lineNumber, a.commentText)
  }

  // ---------------------------------------------------------------- auth

  /** Registration input as received: `role` may be omitted. */
  datatype RawUserCreate = RawUserCreate(email: string, name: string, password: string, role: Option<string>)

  /** Registration input after validation. */
  datatype UserCreate = UserCreate(email: string, name: string, password: string, role: Role)

  /** The literal restriction on a self-registered role: "student" or
      "mentor", "student" when omitted; anything else, "admin" included,
      is refused. */
  function ParseRegistrationRole(role: Option<string>): (r: Option<Role>)
    ensures r.Some? ==> r.value != Admin
    ensures role.None? ==> r == Some(DefaultRole)
    ensures role.Some? ==> (r.Some? <==> role.value == "student" || role.value == "mentor")
  {
    match role
    case None => Some(DefaultRole)
    case Some(s) =>
      if s == "student" then Some(Student)
      else if s == "mentor" then Some(Mentor)
      else None
  }

  /** A role's own name is accepted back exactly when it is not admin. */
  lemma RegistrationRoleRoundTrip(role: Role)
    ensures ParseRegistrationRole(Some(RoleName(role))) == (if role == Admin then None else Some(role))
  {
  }

  /** The error type request validation reports for a value outside a
      literal's choices; the 422 body lists it with the field's location. */
  const RoleLiteralError := "literal_error"

  /** Request validation of a registration: a refused role is a 422. */
  function ValidateUserCreate(raw: RawUserCreate): (r: Result<UserCreate>)
    ensures r.Ok? <==> ParseRegistrationRole(raw.role).Some?
    ensures r.Ok? ==> r.value.email == raw.email && r.value.name == raw.name && r.value.password == raw.password
    ensures r.Ok? ==> r.value.role != Admin
    ensures r.Err? ==> r == Err(Unprocessable, RoleLiteralError)
  {
    match ParseRegistrationRole(raw.role)
    case None => Err(Unprocessable, RoleLiteralError)
    case Some(role) => Ok(UserCreate(raw.email, raw.name, raw.password, role))
  }

  /** The public view of a user: no password field. */
  datatype UserOut = UserOut(id: int, email: string, name: string, role: Role, isActive: bool)

  function ToUserOut(u: User): (r: UserOut)
    ensures r.id == u.id && r.email == u.email && r.name == u.name && r.role == u.role && r.isActive == u.isActive
  {
    UserOut(u.id, u.email, u.name, u.role, u.isActive)
  }

  datatype LoginUser = LoginUser(email: string, password: string)

  datatype LoginResponse = LoginResponse(accessToken: string, tokenType: string, user: UserOut)
}
