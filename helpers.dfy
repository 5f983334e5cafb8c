/** The serialisers the detail handler uses to turn rows into response
    dictionaries: annotations, reviews and a whole submission. */
module Helpers {
  import opened Common
  import opened Models

  /** One annotation entry: keys id, line_number, comment_text. */
  datatype AnnotationDict = AnnotationDict(id: int, lineNumber: int, commentText: string)

  /** `{"id": ..., "name": ...}` of a reviewer, and `{"id", "name",
      "email"}` of a submission's author. */
  datatype ReviewerDict = ReviewerDict(id: int, name: string)
  datatype AuthorDict = AuthorDict(id: int, name: string, email: string)

  /** The entry the review comprehension would build. The comment is
      emitted under the misspelled key `overall_commnets`, hence the field
      name; the timestamp is not modelled. */
  datatype ReviewDict = ReviewDict(
    id: int,
    reviewer: ReviewerDict,
    overallCommnets: string,
    rating: int,
    annotations: seq<AnnotationDict>)

  /** A review row with what its relationships load. */
  datatype ReviewView = ReviewView(review: Review, reviewer: User, annotations: seq<Annotation>)

  /** A submission row with what its relationships load. */
  datatype SubmissionView = SubmissionView(submission: Submission, author: User, tags: seq<Tag>, reviews: seq<ReviewView>)

  datatype SubmissionDict = SubmissionDict(
    id: int,
    user: AuthorDict,
    title: string,
    description: string,
    codeContent: string,
    language: string,
    status: Status,
    tags: seq<string>,
    reviews: seq<ReviewDict>)

  /** One entry per annotation, in input order, carrying its id, line
      number and text. */
  function SerializeAnnotations(as_: seq<Annotation>): (r: seq<AnnotationDict>)
    ensures |r| == |as_|
    ensures forall k :: 0 <= k < |as_| ==>
      r[k].id == as_[k].id && r[k].lineNumber == as_[k].lineNumber && r[k].commentText == as_[k].commentText
  {
    seq(|as_|, k requires 0 <= k < |as_| => AnnotationDict(as_[k].id, as_[k].lineNumber, as_[k].commentText))
  }

  /** Serialising a concatenation is concatenating the serialisations, so
      the entries follow the annotations one for one. */
  lemma SerializeAnnotationsAppend(a: seq<Annotation>, b: seq<Annotation>)
    ensures SerializeAnnotations(a + b) == SerializeAnnotations(a) + SerializeAnnotations(b)
  {
    assert |SerializeAnnotations(a + b)| == |a| + |b|;
    forall k | 0 <= k < |a| + |b|
      ensures SerializeAnnotations(a + b)[k] == (SerializeAnnotations(a) + SerializeAnnotations(b))[k]
    {
      if k < |a| {
        assert (a + b)[k] == a[k];
      } else {
        assert (a + b)[k] == b[k - |a|];
      }
    }
  }

  /** The review comprehension as written. Each entry reads
      `review.createrd_at` after the id, reviewer, comment and rating; the
      review row has no attribute of that name, so the first review raises
      and no entry is ever built. An empty list gives an empty list. */
  function SerializeReviewsAsWritten(vs: seq<ReviewView>): (r: Result<seq<ReviewDict>>)
    ensures r.Err? ==> r == Err(ServerError, InternalServerError)
  {
    if vs == [] then Ok([])
    else Err(ServerError, InternalServerError)
  }

  /** As written, serialising reviews succeeds exactly for an empty list,
      so it agrees with the intended serialiser on no review at all. */
  lemma SerializeReviewsFailsOnAnyReview(vs: seq<ReviewView>)
    ensures SerializeReviewsAsWritten(vs).Ok? <==> vs == []
    ensures SerializeReviewsAsWritten(vs) == Ok(SerializeReviews(vs)) <==> vs == []
  {
  }

  /** The entry for one review, reading its creation time rather than the
      misspelled attribute. */
  function SerializeReview(v: ReviewView): ReviewDict {
    ReviewDict(v.review.id, ReviewerDict(v.reviewer.id, v.reviewer.name),
      v.review.overallComment, v.review.rating, SerializeAnnotations(v.annotations))
  }

  /** The review comprehension as intended: one entry per review, in
      order, with the review's id, its reviewer's id and name, its comment
      and rating, and its annotations serialised in order. */
  function SerializeReviews(vs: seq<ReviewView>): (r: seq<ReviewDict>)
    ensures |r| == |vs|
    ensures forall k :: 0 <= k < |vs| ==>
      && r[k].id == vs[k].review.id
      && r[k].reviewer == ReviewerDict(vs[k].reviewer.id, vs[k].reviewer.name)
      && r[k].overallCommnets == vs[k].review.overallComment
      && r[k].rating == vs[k].review.rating
      && r[k].annotations == SerializeAnnotations(vs[k].annotations)
  {
    seq(|vs|, k requires 0 <= k < |vs| => SerializeReview(vs[k]))
  }

  /** Serialising a concatenation of reviews concatenates the
      serialisations. */
  lemma SerializeReviewsAppend(a: seq<ReviewView>, b: seq<ReviewView>)
    ensures SerializeReviews(a + b) == SerializeReviews(a) + SerializeReviews(b)
  {
    forall k | 0 <= k < |a| + |b|
      ensures SerializeReviews(a + b)[k] == (SerializeReviews(a) + SerializeReviews(b))[k]
    {
      if k < |a| {
        assert (a + b)[k] == a[k];
      } else {
        assert (a + b)[k] == b[k - |a|];
      }
    }
  }

  /** The detail dictionary: the submission's columns, its author's id,
      name and email, the names of its tags in order, and its reviews
      serialised in order. */
  function SerializeSubmission(v: SubmissionView): (r: SubmissionDict)
    ensures r.id == v.submission.id && r.status == v.submission.status
    ensures r.title == v.submission.title && r.description == v.submission.description
    ensures r.codeContent == v.submission.codeContent && r.language == v.submission.language
    ensures r.user == AuthorDict(v.author.id, v.author.name, v.author.email)
    ensures |r.tags| == |v.tags| && forall k :: 0 <= k < |v.tags| ==> r.tags[k] == v.tags[k].name
    ensures r.reviews == SerializeReviews(v.reviews)
  {
    var s := v.submission;
    SubmissionDict(
      s.id, AuthorDict(v.author.id, v.author.name, v.author.email),
      s.title, s.description, s.codeContent, s.language, s.status,
      seq(|v.tags|, k requires 0 <= k < |v.tags| => v.tags[k].name),
      SerializeReviews(v.reviews))
  }

  /** The detail dictionary as written: the review list goes through the
      comprehension as written, so the dictionary is built only for a
      submission without reviews, where it is the intended one; any review
      makes it raise. */
  function SerializeSubmissionAsWritten(v: SubmissionView): (r: Result<SubmissionDict>)
    ensures r.Ok? <==> v.reviews == []
    ensures r.Err? ==> r == Err(ServerError, InternalServerError)
    ensures r.Ok? ==> r.value == SerializeSubmission(v)
  {
    match SerializeReviewsAsWritten(v.reviews)
    case Err(code, detail) => Err(code, detail)
    case Ok(reviews) => Ok(SerializeSubmission(v).(reviews := reviews))
  }
}
