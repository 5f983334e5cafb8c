/** The persisted records: users, submissions, tags, the submission-tag
    links, reviews and annotations, with the column constraints and
    defaults the tables declare. Timestamps are not modelled. */
module Models {
  import opened Common

  /** `user_roles`: student, mentor or admin; a new user is a student
      unless told otherwise. */
  datatype Role = Student | Mentor | Admin
  const DefaultRole: Role := Student

  /** `submission_statuses`: pending, in_review or reviewed; a new
      submission is pending. */
  datatype Status = Pending | InReview | Reviewed
  const DefaultStatus: Status := Pending

  /** `language` is a `String(50)` column. */
  const LanguageMaxLength := 50

  /** An `Integer` column is PostgreSQL's four-byte `integer`: writing a
      value outside this range makes the statement fail. */
  const Int4Min := -0x8000_0000
  const Int4Max := 0x7FFF_FFFF

  predicate IsInt4(n: int) {
    Int4Min <= n <= Int4Max
  }

  /** A user row; `email` is unique across users and `isActive` is true
      unless set otherwise. */
  datatype User = User(id: int, name: string, email: string, password: string, role: Role, isActive: bool)

  /** A submission row. `videoUrl` is the walkthrough-video URL the video
      handlers read and write (see the finding in README about the
      column the submission table does not declare). */
  datatype Submission = Submission(
    id: int,
    userId: int,
    title: string,
    description: string,
    codeContent: string,
    language: string,
    status: Status,
    videoUrl: Option<string>)

  /** A tag row; `name` is unique across tags. */
  datatype Tag = Tag(id: int, name: string)

  /** A `submission_tags` row; the pair is the composite primary key. */
  datatype SubmissionTag = SubmissionTag(submissionId: int, tagId: int)

  /** A review row; `rating` is a non-null integer column. */
  datatype Review = Review(id: int, submissionId: int, reviewerId: int, overallComment: string, rating: int)

  /** An annotation row; `lineNumber` is a non-null integer column. */
  datatype Annotation = Annotation(id: int, reviewId: int, lineNumber: int, commentText: string)

  /** The row `Submission(...)` gives before any column default is
      overridden: the default status and no video. */
  function NewSubmission(id: int, userId: int, title: string, description: string, codeContent: string, language: string): (s: Submission)
  {
    Submission(id, userId, title, description, codeContent, language, DefaultStatus, None)
  }

  /** The row `User(...)` gives with the default active flag. */
  function NewUser(id: int, name: string, email: string, password: string, role: Role): (u: User)
  {
    User(id, name, email, password, role, true)
  }

  /** The stored spelling of a role. */
  function RoleName(r: Role): string {
    match r
    case Student => "student"
    case Mentor => "mentor"
    case Admin => "admin"
  }

  /** The stored spelling of a status. */
  function StatusName(s: Status): string {
    match s
    case Pending => "pending"
    case InReview => "in_review"
    case Reviewed => "reviewed"
  }
}
