/** The review handlers: a mentor creates a review with its line
    annotations, which marks the submission reviewed; anyone allowed to
    read a submission lists its reviews. */
module ReviewRoutes {
  import opened Common
  import opened Models
  import opened Schemas
  import opened Database
  import opened Access

  // the detail texts of the errors raised
  const OnlyMentors := "Only mentors can create reviews"
  const ReviewsNotOwner := "Not authorized to view reviews for this submission"
  const ReviewsNotFound := "Submission not found"

  /** The 404 detail of the create handler, naming the id asked for. */
  function SubmissionMissing(id: int): (d: string)
    ensures |d| == 29 + |IntToString(id)|
    ensures d[..19] == "Submission with id " && d[|d| - 10..] == " not found"
    ensures d[19..|d| - 10] == IntToString(id)
  {
    "Submission with id " + IntToString(id) + " not found"
  }

  /** Every input annotation carries a line number. */
  predicate AllLinesGiven(anns: seq<AnnotationCreate>) {
    forall k :: 0 <= k < |anns| ==> anns[k].lineNumber.Some?
  }

  /** The annotation rows stored for the review `reviewId` when every line
      number is given: one per input, in order, with consecutive ids from
      `nextId`. */
  function AnnotationRows(reviewId: int, nextId: int, anns: seq<AnnotationCreate>): (r: seq<Annotation>)
    requires AllLinesGiven(anns)
    ensures |r| == |anns|
    ensures forall k :: 0 <= k < |anns| ==>
      r[k] == Annotation(nextId + k, reviewId, anns[k].lineNumber.value, anns[k].commentText)
  {
    seq(|anns|, k requires 0 <= k < |anns| =>
      Annotation(nextId + k, reviewId, anns[k].lineNumber.value, anns[k].commentText))
  }

  /** Every input annotation carries a line number that the integer
      column can hold. */
  predicate LinesStorable(anns: seq<AnnotationCreate>) {
    forall k :: 0 <= k < |anns| ==> anns[k].lineNumber.Some? && IsInt4(anns[k].lineNumber.value)
  }

  /** The loop of the create handler: one `Annotation` per input, added
      to the session, then the commit. A row without a line number
      violates the column's NOT NULL constraint at that commit, and one
      whose line number does not fit the integer column is refused
      there too; either rolls back every row of the loop (`ok` false).
      Otherwise all rows are stored with fresh ids. */
  method AddAnnotations(db: Db, reviewId: int, anns: seq<AnnotationCreate>) returns (ok: bool)
    requires db.Valid()
    modifies db
    ensures db.Valid()
    ensures ok <==> LinesStorable(anns)
    ensures ok ==> db.annotations == old(db.annotations) + AnnotationRows(reviewId, old(db.nextAnnotationId), anns)
    ensures ok ==> db.nextAnnotationId == old(db.nextAnnotationId) + |anns|
    ensures !ok ==> unchanged(db)
    ensures db.users == old(db.users) && db.submissions == old(db.submissions) && db.tags == old(db.tags)
    ensures db.links == old(db.links) && db.reviews == old(db.reviews)
  {
    var next := db.nextAnnotationId;
    var pending: seq<Annotation> := [];
    var refused := false;
    var i := 0;
    while i < |anns|
      invariant 0 <= i <= |anns|
      invariant refused <==> !LinesStorable(anns[..i])
      invariant !refused ==> pending == AnnotationRows(reviewId, next, anns[..i])
    {
      assert anns[..i + 1] == anns[..i] + [anns[i]];
      match anns[i].lineNumber {
        case None =>
          refused := true;
        case Some(line) =>
          if !IsInt4(line) {
            refused := true;
          } else if !refused {
            pending := pending + [Annotation(next + i, reviewId, line, anns[i].commentText)];
          }
      }
      i := i + 1;
    }
    assert anns[..i] == anns;
    if refused {
      return false;
    }
    AnnotationsAppendValid(db.annotations, next, pending);
    db.annotations := db.annotations + pending;
    db.nextAnnotationId := next + |anns|;
    ok := true;
  }

  /** Appending rows with consecutive ids from the counter keeps the
      annotation table's invariant. */
  lemma AnnotationsAppendValid(as_: seq<Annotation>, next: int, rows: seq<Annotation>)
    requires AnnotationsValid(as_, next)
    requires forall k :: 0 <= k < |rows| ==> rows[k].id == next + k
    ensures AnnotationsValid(as_ + rows, next + |rows|)
  {
    var all := as_ + rows;
    forall i | 0 <= i < |all| ensures 1 <= all[i].id < next + |rows| {
      if i >= |as_| { assert all[i] == rows[i - |as_|]; }
    }
    forall i, j | 0 <= i < j < |all| ensures all[i].id != all[j].id {
      if j >= |as_| {
        assert all[j] == rows[j - |as_|];
        if i >= |as_| { assert all[i] == rows[i - |as_|]; }
      }
    }
  }

  /** The review insert and its commit: the row gets the next id and
      copies the payload, with the caller as reviewer. A rating the
      integer column cannot hold fails the commit, which stores nothing
      (`None`). */
  method InsertReview(db: Db, reviewerId: int, payload: ReviewCreate) returns (review: Option<Review>)
    requires db.Valid()
    modifies db
    ensures db.Valid()
    ensures review.Some? <==> IsInt4(payload.rating)
    ensures review.None? ==> unchanged(db)
    ensures review.Some? ==>
      && review.value == Review(old(db.nextReviewId), payload.submissionId, reviewerId, payload.overallComment, payload.rating)
      && db.reviews == old(db.reviews) + [review.value] && db.nextReviewId == review.value.id + 1
    ensures db.users == old(db.users) && db.submissions == old(db.submissions) && db.tags == old(db.tags)
    ensures db.links == old(db.links) && db.annotations == old(db.annotations)
    ensures db.nextAnnotationId == old(db.nextAnnotationId)
  {
    if !IsInt4(payload.rating) {
      return None;
    }
    var row := Review(db.nextReviewId, payload.submissionId, reviewerId, payload.overallComment, payload.rating);
    var rs := db.reviews + [row];
    forall i | 0 <= i < |rs| ensures 1 <= rs[i].id < db.nextReviewId + 1 {
      if i < |db.reviews| { assert rs[i] == db.reviews[i]; }
    }
    forall i, j | 0 <= i < j < |rs| ensures rs[i].id != rs[j].id {
      assert rs[i] == db.reviews[i];
      if j < |db.reviews| { assert rs[j] == db.reviews[j]; }
    }
    db.reviews := rs;
    db.nextReviewId := db.nextReviewId + 1;
    review := Some(row);
  }

  /** `submission.status = "reviewed"` and its commit: only that row's
      status changes. */
  method MarkReviewed(db: Db, k: nat)
    requires db.Valid() && k < |db.submissions|
    modifies db
    ensures db.Valid()
    ensures db.submissions == old(db.submissions)[k := old(db.submissions)[k].(status := Reviewed)]
    ensures db.users == old(db.users) && db.tags == old(db.tags) && db.links == old(db.links)
    ensures db.reviews == old(db.reviews) && db.annotations == old(db.annotations)
  {
    var s := db.submissions[k].(status := Reviewed);
    var ss := db.submissions[k := s];
    forall i | 0 <= i < |ss|
      ensures 1 <= ss[i].id < db.nextSubmissionId && |ss[i].language| <= LanguageMaxLength
      ensures HasUser(db.users, ss[i].userId)
    {
    }
    db.submissions := ss;
  }

  /** The annotation part of the create handler, after the review's
      commit: the loop over the payload's list (a `null` list fails it),
      the annotations' commit (a missing line number, or one the integer
      column cannot hold, fails it), and the
      refresh of the loop variable (unbound when the list was empty).
      Each failure is a 500 that stores nothing more. */
  method RecordAnnotations(db: Db, reviewId: int, annotations: Option<seq<AnnotationCreate>>) returns (r: Result<seq<Annotation>>)
    requires db.Valid()
    modifies db
    ensures db.Valid()
    ensures r.Ok? <==> annotations.Some? && |annotations.value| > 0 && LinesStorable(annotations.value)
    ensures r.Err? ==> r.code == ServerError && db.annotations == old(db.annotations)
    ensures r.Ok? ==>
      && r.value == AnnotationRows(reviewId, old(db.nextAnnotationId), annotations.value)
      && db.annotations == old(db.annotations) + r.value
    ensures db.users == old(db.users) && db.submissions == old(db.submissions) && db.tags == old(db.tags)
    ensures db.links == old(db.links) && db.reviews == old(db.reviews)
  {
    if annotations.None? {
      // iterating over `None` raises
      return Err(ServerError, InternalServerError);
    }
    var anns := annotations.value;
    var firstId := db.nextAnnotationId;
    var ok := AddAnnotations(db, reviewId, anns);
    if !ok {
      // the commit raises: a line number is null or out of the column's range
      return Err(ServerError, InternalServerError);
    }
    if |anns| == 0 {
      // the response reads the loop variable, which an empty list never binds
      return Err(ServerError, InternalServerError);
    }
    r := Ok(AnnotationRows(reviewId, firstId, anns));
  }

  /** POST /api/reviews. A non-mentor gets 403 and a missing submission
      404, both with nothing stored. A rating the integer column cannot
      hold fails the review's commit: a 500 with nothing stored.
      Otherwise the review is committed first, and stays whatever
      happens next: a `null` annotation list fails the loop, a missing
      or out-of-range line number fails the annotations' commit, and an
      empty list leaves the loop variable unbound at the refresh; each is
      a 500 that leaves the status as it was. Only when every annotation
      is stored does the submission become reviewed. */
  method CreateReview(db: Db, caller: User, payload: ReviewCreate) returns (r: Result<ReviewResponse>)
    requires db.Valid()
    modifies db
    ensures db.Valid()
    ensures caller.role != Mentor ==> r == Err(Forbidden, OnlyMentors) && unchanged(db)
    ensures caller.role == Mentor && SubmissionIndex(old(db.submissions), payload.submissionId).None? ==>
      r == Err(NotFound, SubmissionMissing(payload.submissionId)) && unchanged(db)
    ensures caller.role == Mentor && SubmissionIndex(old(db.submissions), payload.submissionId).Some? ==>
      !IsInt4(payload.rating) ==> r == Err(ServerError, InternalServerError) && unchanged(db)
    ensures caller.role == Mentor && SubmissionIndex(old(db.submissions), payload.submissionId).Some? ==>
      IsInt4(payload.rating) ==>
      && db.reviews == old(db.reviews) + [Review(old(db.nextReviewId), payload.submissionId, caller.id,
           payload.overallComment, payload.rating)]
      && (r.Ok? <==> payload.annotations.Some? && |payload.annotations.value| > 0 && LinesStorable(payload.annotations.value))
    ensures r.Err? ==> db.submissions == old(db.submissions) && db.annotations == old(db.annotations)
    ensures r.Err? ==> r.code in {Forbidden, NotFound, ServerError}
    ensures r.Ok? ==>
      var k := SubmissionIndex(old(db.submissions), payload.submissionId).value;
      var anns := payload.annotations.value;
      && db.submissions == old(db.submissions)[k := old(db.submissions)[k].(status := Reviewed)]
      && db.annotations == old(db.annotations) + AnnotationRows(old(db.nextReviewId), old(db.nextAnnotationId), anns)
      && r.value.id == old(db.nextReviewId) && r.value.submissionId == payload.submissionId
      && r.value.overallComment == payload.overallComment && r.value.rating == payload.rating
      && r.value.reviewer == ReviewerOut(caller.id, caller.name)
      && |r.value.annotations| == |anns|
      && (forall j :: 0 <= j < |anns| ==>
            r.value.annotations[j] == AnnotationOut(old(db.nextAnnotationId) + j, anns[j].lineNumber.value, anns[j].commentText))
    ensures db.users == old(db.users) && db.tags == old(db.tags) && db.links == old(db.links)
  {
    if caller.role != Mentor {
      return Err(Forbidden, OnlyMentors);
    }
    var found := SubmissionIndex(db.submissions, payload.submissionId);
    if found.None? {
      return Err(NotFound, SubmissionMissing(payload.submissionId));
    }
    var inserted := InsertReview(db, caller.id, payload);
    if inserted.None? {
      // the commit raises: the rating is out of the column's range
      return Err(ServerError, InternalServerError);
    }
    var review := inserted.value;
    var stored := RecordAnnotations(db, review.id, payload.annotations);
    if stored.Err? {
      return Err(stored.code, stored.detail);
    }
    MarkReviewed(db, found.value);
    var rows := stored.value;
    var outs := seq(|rows|, j requires 0 <= j < |rows| => ToAnnotationOut(rows[j]));
    r := Ok(ReviewResponse(review.id, review.submissionId, review.overallComment, review.rating,
      ReviewerOut(caller.id, caller.name), outs));
  }

  /** GET /api/reviews/submission/{id}: 404 when absent, 403 for a student
      who is not the author, otherwise exactly the reviews of that
      submission, in table order. */
  method GetReviewsBySubmission(db: Db, caller: User, submissionId: int) returns (r: Result<seq<Review>>)
    ensures CheckReadable(db.submissions, caller, submissionId) == Denied(Missing) ==>
      r == Err(NotFound, ReviewsNotFound)
    ensures CheckReadable(db.submissions, caller, submissionId) == Denied(NotOwner) ==>
      r == Err(Forbidden, ReviewsNotOwner)
    ensures r.Ok? <==> CheckReadable(db.submissions, caller, submissionId).Allowed?
    ensures r.Ok? ==> forall x :: x in r.value <==> x in db.reviews && x.submissionId == submissionId
    ensures r.Ok? ==> |r.value| == |ReviewRows(db.reviews, submissionId)|
    ensures r.Ok? ==> r.value == ReviewsOf(db.reviews, submissionId)
    ensures r.Ok? && caller.role == Student ==>
      exists k :: 0 <= k < |db.submissions| && db.submissions[k].id == submissionId && db.submissions[k].userId == caller.id
  {
    var c := CheckReadable(db.submissions, caller, submissionId);
    if c == Denied(Missing) {
      return Err(NotFound, ReviewsNotFound);
    }
    if c == Denied(NotOwner) {
      return Err(Forbidden, ReviewsNotOwner);
    }
    ReviewCountIsRowCount(db.reviews, submissionId);
    r := Ok(ReviewsOf(db.reviews, submissionId));
  }
}
