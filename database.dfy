/** The relational store the handlers work on, held in memory: one
    sequence of rows per table, one id counter per table (the next id the
    table's serial column hands out), and the constraints the tables
    declare as the object invariant `Valid`. */
module Database {
  import opened Common
  import opened Models

  class Db {
    var users: seq<User>
    var submissions: seq<Submission>
    var tags: seq<Tag>
    var links: seq<SubmissionTag>
    var reviews: seq<Review>
    var annotations: seq<Annotation>

    var nextUserId: int
    var nextSubmissionId: int
    var nextTagId: int
    var nextReviewId: int
    var nextAnnotationId: int

    /** Counters start at 1; primary keys are unique and below their
        counter; emails and tag names are unique; link pairs are unique and
        name submissions the counter has handed out; languages fit their
        column; every submission's owner is a stored user. */
    ghost predicate Valid()
      reads this
    {
      && UsersValid(users, nextUserId)
      && SubmissionsValid(submissions, nextSubmissionId)
      && TagsValid(tags, nextTagId)
      && LinksValid(links, nextSubmissionId)
      && ReviewsValid(reviews, nextReviewId)
      && AnnotationsValid(annotations, nextAnnotationId)
      && OwnersStored(submissions, users)
    }

    /** An empty database. */
    constructor ()
      ensures Valid()
      ensures users == [] && submissions == [] && tags == [] && links == [] && reviews == [] && annotations == []
    {
      users, submissions, tags, links, reviews, annotations := [], [], [], [], [], [];
      nextUserId, nextSubmissionId, nextTagId, nextReviewId, nextAnnotationId := 1, 1, 1, 1, 1;
    }
  }

  ghost predicate UsersValid(us: seq<User>, next: int) {
    && 1 <= next
    && (forall i :: 0 <= i < |us| ==> 1 <= us[i].id < next)
    && (forall i, j :: 0 <= i < j < |us| ==> us[i].id != us[j].id && us[i].email != us[j].email)
  }

  ghost predicate SubmissionsValid(ss: seq<Submission>, next: int) {
    && 1 <= next
    && (forall i :: 0 <= i < |ss| ==> 1 <= ss[i].id < next && |ss[i].language| <= LanguageMaxLength)
    && (forall i, j :: 0 <= i < j < |ss| ==> ss[i].id != ss[j].id)
  }

  ghost predicate TagsValid(ts: seq<Tag>, next: int) {
    && 1 <= next
    && (forall i :: 0 <= i < |ts| ==> 1 <= ts[i].id < next)
    && (forall i, j :: 0 <= i < j < |ts| ==> ts[i].id != ts[j].id && ts[i].name != ts[j].name)
  }

  ghost predicate LinksValid(ls: seq<SubmissionTag>, nextSubmission: int) {
    && (forall i :: 0 <= i < |ls| ==> ls[i].submissionId < nextSubmission)
    && Distinct(ls)
  }

  ghost predicate ReviewsValid(rs: seq<Review>, next: int) {
    && 1 <= next
    && (forall i :: 0 <= i < |rs| ==> 1 <= rs[i].id < next)
    && (forall i, j :: 0 <= i < j < |rs| ==> rs[i].id != rs[j].id)
  }

  ghost predicate AnnotationsValid(as_: seq<Annotation>, next: int) {
    && 1 <= next
    && (forall i :: 0 <= i < |as_| ==> 1 <= as_[i].id < next)
    && (forall i, j :: 0 <= i < j < |as_| ==> as_[i].id != as_[j].id)
  }

  ghost predicate OwnersStored(ss: seq<Submission>, us: seq<User>) {
    forall i :: 0 <= i < |ss| ==> HasUser(us, ss[i].userId)
  }

  ghost predicate HasUser(us: seq<User>, id: int) {
    exists j :: 0 <= j < |us| && us[j].id == id
  }

  // ---------------------------------------------------------------- lookups

  /** The first user row with the given id, if any. */
  function UserIndex(us: seq<User>, id: int): (r: Option<nat>)
    ensures r.Some? ==> r.value < |us| && us[r.value].id == id
    ensures r.None? <==> forall k :: 0 <= k < |us| ==> us[k].id != id
  {
    FindFirst(us, (u: User) => u.id == id)
  }

  /** The first user row with the given email, if any. */
  function UserByEmail(us: seq<User>, email: string): (r: Option<nat>)
    ensures r.Some? ==> r.value < |us| && us[r.value].email == email
    ensures r.Some? ==> forall k :: 0 <= k < r.value ==> us[k].email != email
    ensures r.None? <==> forall k :: 0 <= k < |us| ==> us[k].email != email
  {
    FindFirst(us, (u: User) => u.email == email)
  }

  /** The first submission row with the given id, if any. */
  function SubmissionIndex(ss: seq<Submission>, id: int): (r: Option<nat>)
    ensures r.Some? ==> r.value < |ss| && ss[r.value].id == id
    ensures r.None? <==> forall k :: 0 <= k < |ss| ==> ss[k].id != id
  {
    FindFirst(ss, (s: Submission) => s.id == id)
  }

  /** The first tag row with the given name, if any. */
  function TagIndex(ts: seq<Tag>, name: string): (r: Option<nat>)
    ensures r.Some? ==> r.value < |ts| && ts[r.value].name == name
    ensures r.Some? ==> forall k :: 0 <= k < r.value ==> ts[k].name != name
    ensures r.None? <==> forall k :: 0 <= k < |ts| ==> ts[k].name != name
  {
    FindFirst(ts, (t: Tag) => t.name == name)
  }

  /** Adding a user keeps every lookup by id that already succeeds. */
  lemma UserIndexAppend(us: seq<User>, u: User, id: int)
    requires UserIndex(us, id).Some?
    ensures UserIndex(us + [u], id) == UserIndex(us, id)
  {
    FindFirstAppend(us, u, (x: User) => x.id == id);
  }

  /** Adding a tag keeps every lookup by name that already succeeds. */
  lemma TagIndexAppend(ts: seq<Tag>, t: Tag, name: string)
    requires TagIndex(ts, name).Some?
    ensures TagIndex(ts + [t], name) == TagIndex(ts, name)
  {
    FindFirstAppend(ts, t, (x: Tag) => x.name == name);
  }

  /** Under unique ids, the row found for an id is the only one with it. */
  lemma SubmissionIndexUnique(ss: seq<Submission>, next: int, k: nat)
    requires SubmissionsValid(ss, next) && k < |ss|
    ensures SubmissionIndex(ss, ss[k].id) == Some(k)
  {
  }

  // ---------------------------------------------------------------- derived views

  /** All the reviews of one submission, in table order. */
  function ReviewsOf(rs: seq<Review>, submissionId: int): (r: seq<Review>)
    ensures forall x :: x in r <==> x in rs && x.submissionId == submissionId
    ensures |r| <= |rs|
  {
    if |rs| == 0 then []
    else if rs[0].submissionId == submissionId then [rs[0]] + ReviewsOf(rs[1..], submissionId)
    else ReviewsOf(rs[1..], submissionId)
  }

  /** The filter keeps a single row exactly when it belongs to the
      submission. */
  lemma ReviewsOfSingle(x: Review, submissionId: int)
    ensures ReviewsOf([x], submissionId) == if x.submissionId == submissionId then [x] else []
  {
    assert [x][1..] == [];
  }

  /** Filtering commutes with concatenation: together with the single-row
      case this fixes the order and the multiplicity of the result. */
  lemma {:induction false} ReviewsOfAppend(a: seq<Review>, b: seq<Review>, submissionId: int)
    ensures ReviewsOf(a + b, submissionId) == ReviewsOf(a, submissionId) + ReviewsOf(b, submissionId)
    decreases |a|
  {
    if a == [] {
      assert a + b == b;
    } else {
      assert (a + b)[0] == a[0];
      assert (a + b)[1..] == a[1..] + b;
      ReviewsOfAppend(a[1..], b, submissionId);
    }
  }

  /** The positions of the table that hold a review of the submission. */
  ghost function ReviewRows(rs: seq<Review>, submissionId: int): set<nat> {
    set k: nat | k < |rs| && rs[k].submissionId == submissionId
  }

  /** `count(Review.id)` over the outer join: the number of reviews of the
      submission, zero when it has none. */
  function ReviewCount(rs: seq<Review>, submissionId: int): (n: nat)
    ensures n == 0 <==> forall k :: 0 <= k < |rs| ==> rs[k].submissionId != submissionId
  {
    var r := ReviewsOf(rs, submissionId);
    assert forall k :: 0 <= k < |rs| && rs[k].submissionId == submissionId ==> rs[k] in r;
    assert |r| > 0 ==> r[0] in r;
    |r|
  }

  /** The count is the number of rows of the review table that belong to
      the submission. */
  lemma {:induction false} ReviewCountIsRowCount(rs: seq<Review>, submissionId: int)
    ensures ReviewCount(rs, submissionId) == |ReviewRows(rs, submissionId)|
    decreases |rs|
  {
    if rs != [] {
      var n := |rs| - 1;
      var init := rs[..n];
      assert rs == init + [rs[n]];
      ReviewsOfAppend(init, [rs[n]], submissionId);
      ReviewsOfSingle(rs[n], submissionId);
      ReviewCountIsRowCount(init, submissionId);
      ReviewRowsSnoc(rs, submissionId);
    }
  }

  /** The rows of a table are those of all but its last row, plus the
      last one when it belongs to the submission. */
  lemma ReviewRowsSnoc(rs: seq<Review>, submissionId: int)
    requires rs != []
    ensures var n := |rs| - 1;
      ReviewRows(rs, submissionId) ==
        ReviewRows(rs[..n], submissionId) + (if rs[n].submissionId == submissionId then {n} else {})
    ensures |rs| - 1 !in ReviewRows(rs[..|rs| - 1], submissionId)
  {
    var n := |rs| - 1;
    forall k: nat | k < n ensures rs[..n][k] == rs[k] {
    }
  }

  /** The annotations of one review, in table order. */
  function AnnotationsOf(as_: seq<Annotation>, reviewId: int): (r: seq<Annotation>)
    ensures forall x :: x in r <==> x in as_ && x.reviewId == reviewId
  {
    if |as_| == 0 then []
    else if as_[0].reviewId == reviewId then [as_[0]] + AnnotationsOf(as_[1..], reviewId)
    else AnnotationsOf(as_[1..], reviewId)
  }

  /** The filter keeps a single annotation exactly when it belongs to the
      review. */
  lemma AnnotationsOfSingle(x: Annotation, reviewId: int)
    ensures AnnotationsOf([x], reviewId) == if x.reviewId == reviewId then [x] else []
  {
    assert [x][1..] == [];
  }

  /** Filtering annotations commutes with concatenation. */
  lemma {:induction false} AnnotationsOfAppend(a: seq<Annotation>, b: seq<Annotation>, reviewId: int)
    ensures AnnotationsOf(a + b, reviewId) == AnnotationsOf(a, reviewId) + AnnotationsOf(b, reviewId)
    decreases |a|
  {
    if a == [] {
      assert a + b == b;
    } else {
      assert (a + b)[0] == a[0];
      assert (a + b)[1..] == a[1..] + b;
      AnnotationsOfAppend(a[1..], b, reviewId);
    }
  }

  /** The `submission_tags` rows left after the submission's own rows are
      deleted along with it. */
  function LinksWithout(ls: seq<SubmissionTag>, submissionId: int): (r: seq<SubmissionTag>)
    ensures forall x :: x in r <==> x in ls && x.submissionId != submissionId
    ensures Distinct(ls) ==> Distinct(r)
  {
    if |ls| == 0 then []
    else
      var rest := LinksWithout(ls[1..], submissionId);
      assert Distinct(ls) ==> ls[0] !in ls[1..];
      if ls[0].submissionId != submissionId then [ls[0]] + rest else rest
  }

  /** The tags linked to a submission, in link-table order (the
      `submission.tags` relationship). */
  function TagsOf(ls: seq<SubmissionTag>, ts: seq<Tag>, submissionId: int): (r: seq<Tag>)
    ensures |r| <= |ls|
    ensures forall t :: t in r ==> t in ts && SubmissionTag(submissionId, t.id) in ls
  {
    if |ls| == 0 then []
    else
      var rest := TagsOf(ls[1..], ts, submissionId);
      if ls[0].submissionId == submissionId then
        match FindFirst(ts, (t: Tag) => t.id == ls[0].tagId)
        case Some(k) => [ts[k]] + rest
        case None => rest
      else rest
  }

  /** Under unique tag ids, every stored tag the submission is linked to
      is among its tags. */
  lemma {:induction false} TagsOfComplete(ls: seq<SubmissionTag>, ts: seq<Tag>, next: int, submissionId: int)
    requires TagsValid(ts, next)
    ensures forall t :: t in ts && SubmissionTag(submissionId, t.id) in ls ==> t in TagsOf(ls, ts, submissionId)
    decreases |ls|
  {
    if ls != [] {
      TagsOfComplete(ls[1..], ts, next, submissionId);
      forall t | t in ts && SubmissionTag(submissionId, t.id) in ls
        ensures t in TagsOf(ls, ts, submissionId)
      {
        if ls[0] == SubmissionTag(submissionId, t.id) {
          var f := FindFirst(ts, (x: Tag) => x.id == ls[0].tagId);
          var j :| 0 <= j < |ts| && ts[j] == t;
          assert f.Some?;
          assert ts[f.value] == t;
        } else {
          assert SubmissionTag(submissionId, t.id) in ls[1..];
        }
      }
    }
  }
}
