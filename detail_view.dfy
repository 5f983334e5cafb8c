/** The submission detail view of the web client: the author edits or
    deletes a pending submission, and a mentor writes a review with
    line annotations. Requests are outside the model: each handler takes
    the request's outcome (`None` for success, or the thrown error's
    message) and, where the view reloads, the reload's result. */
module DetailView {
  import opened Common
  import opened Models
  import opened Database
  import opened Access
  import opened Helpers
  import opened JsText
  import opened CreateView

  const LoadFailed := "Failed to load submission details"
  const Deleted := "Submission deleted successfully!"
  const DeleteFailed := "Failed to delete submission"
  const Updated := "Submission updated successfully!"
  const UpdateFailed := "Failed to update submission"
  const CommentRequired := "Overall comment is required"
  const LineNotNumber := "Line number must be a number"
  const ReviewSubmitted := "Review submitted successfully!"
  const ReviewFailed := "Failed to submit review"
  const DefaultRating := 5

  /** An annotation row of the review form, both fields as typed. */
  datatype Draft = Draft(commentText: string, lineNumber: string)

  const BlankDraft := Draft("", "")

  /** The two fields of a draft. */
  datatype DraftField = CommentText | LineNumber

  /** An annotation as the review request carries it. */
  datatype AnnotationPayload = AnnotationPayload(commentText: string, lineNumber: int)

  /** The review request's body. */
  datatype ReviewPayload = ReviewPayload(submissionId: int, overallComment: string, rating: int, annotations: seq<AnnotationPayload>)

  /** The edit form's fields, sent as the update request's body. */
  datatype EditForm = EditForm(title: string, description: string, codeContent: string)

  // ---------------------------------------------------------------- annotation drafts

  /** `addAnnotation`: one blank row at the end, the others unchanged. */
  function AppendBlank(ds: seq<Draft>): (r: seq<Draft>)
    ensures |r| == |ds| + 1 && r[..|ds|] == ds && r[|ds|] == BlankDraft
  {
    ds + [BlankDraft]
  }

  /** `removeAnnotation(idx)`: the rows whose position is not `idx`, in
      order; an index outside the list removes nothing. */
  function RemoveAt(ds: seq<Draft>, idx: int): (r: seq<Draft>)
    ensures 0 <= idx < |ds| ==> r == ds[..idx] + ds[idx + 1..]
    ensures !(0 <= idx < |ds|) ==> r == ds
  {
    if ds == [] then []
    else
      var init := ds[..|ds| - 1];
      var last := ds[|ds| - 1];
      assert ds == init + [last];
      RemoveAt(init, idx) + (if idx == |ds| - 1 then [] else [last])
  }

  /** A draft with one field replaced. */
  function SetField(d: Draft, field: DraftField, value: string): (r: Draft)
    ensures field == CommentText ==> r.commentText == value && r.lineNumber == d.lineNumber
    ensures field == LineNumber ==> r.lineNumber == value && r.commentText == d.commentText
  {
    match field
    case CommentText => d.(commentText := value)
    case LineNumber => d.(lineNumber := value)
  }

  /** `updateAnnotation(idx, field, value)`: only the named field of row
      `idx` changes; an index outside the list changes nothing. */
  function UpdateAt(ds: seq<Draft>, idx: int, field: DraftField, value: string): (r: seq<Draft>)
    ensures |r| == |ds|
    ensures forall k :: 0 <= k < |ds| && k != idx ==> r[k] == ds[k]
    ensures 0 <= idx < |ds| ==> r[idx] == SetField(ds[idx], field, value)
  {
    seq(|ds|, k requires 0 <= k < |ds| => if k == idx then SetField(ds[k], field, value) else ds[k])
  }

  // ---------------------------------------------------------------- normalisation

  /** The line number a draft sends: 0 when the field is blank, otherwise
      `parseInt` of the field, `None` when that is not a number. */
  function LineOf(field: string): Option<int>
  {
    if Trim(field) == "" then Some(0) else ParseInt(field)
  }

  /** What one draft contributes to the review. */
  datatype Step = Skip | Keep(annotation: AnnotationPayload) | Abort

  function DraftStep(d: Draft): Step
  {
    var text := Trim(d.commentText);
    if text == "" then Skip
    else
      match LineOf(d.lineNumber)
      case None => Abort
      case Some(ln) => Keep(AnnotationPayload(text, ln))
  }

  /** A draft whose trimmed text is empty is skipped; otherwise it sends
      its trimmed text, non-empty and unpadded, with line 0 when the line
      field is blank and the field's `parseInt` otherwise, or aborts when
      that is not a number. */
  lemma DraftStepCases(d: Draft)
    ensures DraftStep(d) == Skip <==> Trim(d.commentText) == ""
    ensures Trim(d.commentText) != "" && Trim(d.lineNumber) == "" ==>
      DraftStep(d) == Keep(AnnotationPayload(Trim(d.commentText), 0))
    ensures Trim(d.commentText) != "" && Trim(d.lineNumber) != "" ==>
      && (DraftStep(d) == Abort <==> ParseInt(d.lineNumber).None?)
      && (DraftStep(d).Keep? ==> DraftStep(d).annotation == AnnotationPayload(Trim(d.commentText), ParseInt(d.lineNumber).value))
    ensures DraftStep(d).Keep? ==> DraftStep(d).annotation.commentText != "" && Unpadded(DraftStep(d).annotation.commentText)
  {
    TrimIdempotent(d.commentText);
    TrimFixedIff(Trim(d.commentText));
  }

  /** Each draft's step, in order. */
  function Steps(ds: seq<Draft>): (r: seq<Step>)
    ensures |r| == |ds| && forall k :: 0 <= k < |ds| ==> r[k] == DraftStep(ds[k])
  {
    seq(|ds|, k requires 0 <= k < |ds| => DraftStep(ds[k]))
  }

  /** The annotations a sequence of steps sends: the kept ones in order;
      `None` as soon as one aborts. */
  function Collect(steps: seq<Step>): (r: Option<seq<AnnotationPayload>>)
    ensures r.Some? ==> |r.value| <= |steps|
  {
    if steps == [] then Some([])
    else
      match Collect(steps[..|steps| - 1])
      case None => None
      case Some(prev) =>
        match steps[|steps| - 1]
        case Skip => Some(prev)
        case Abort => None
        case Keep(a) => Some(prev + [a])
  }

  /** The annotations a review sends for the drafts. */
  function Normalized(ds: seq<Draft>): Option<seq<AnnotationPayload>>
  {
    Collect(Steps(ds))
  }

  /** Collecting succeeds exactly when no step aborts. */
  lemma {:induction false} CollectSucceedsIff(steps: seq<Step>)
    ensures Collect(steps).Some? <==> Abort !in steps
  {
    if steps != [] {
      var init := steps[..|steps| - 1];
      CollectSucceedsIff(init);
      assert steps == init + [steps[|steps| - 1]];
    }
  }

  /** Every collected annotation is the annotation of a kept step. */
  lemma {:induction false} CollectFromKept(steps: seq<Step>)
    requires Collect(steps).Some?
    ensures forall a :: a in Collect(steps).value ==> Keep(a) in steps
  {
    if steps != [] {
      var init := steps[..|steps| - 1];
      CollectFromKept(init);
      assert steps == init + [steps[|steps| - 1]];
    }
  }

  /** A single step sends nothing when it skips, its annotation when it
      keeps, and aborts when it aborts. */
  lemma CollectSingle(st: Step)
    ensures Collect([st]) == match st
      case Skip => Some([])
      case Keep(a) => Some([a])
      case Abort => None
  {
    assert [st][..0] == [];
    assert Collect([st][..0]) == Some([]);
    if st.Keep? {
      assert [] + [st.annotation] == [st.annotation];
    }
  }

  /** Collecting a concatenation succeeds exactly when both halves do, and
      then sends the first half's annotations followed by the second's. */
  lemma {:induction false} CollectAppend(a: seq<Step>, b: seq<Step>)
    ensures Collect(a + b) ==
      if Collect(a).Some? && Collect(b).Some? then Some(Collect(a).value + Collect(b).value) else None
    decreases |b|
  {
    if b == [] {
      assert a + b == a;
      if Collect(a).Some? {
        assert Collect(a).value + [] == Collect(a).value;
      }
    } else {
      var init := b[..|b| - 1];
      assert (a + b)[..|a + b| - 1] == a + init;
      assert (a + b)[|a + b| - 1] == b[|b| - 1];
      CollectAppend(a, init);
      assert b == init + [b[|b| - 1]];
      if Collect(a).Some? && Collect(init).Some? && b[|b| - 1].Keep? {
        var x, y := Collect(a).value, Collect(init).value;
        assert (x + y) + [b[|b| - 1].annotation] == x + (y + [b[|b| - 1].annotation]);
      }
    }
  }

  /** Steps that all keep send their annotations, in order. */
  lemma {:induction false} CollectAllKept(anns: seq<AnnotationPayload>)
    ensures Collect(seq(|anns|, k requires 0 <= k < |anns| => Keep(anns[k]))) == Some(anns)
  {
    if anns != [] {
      var n := |anns| - 1;
      var steps := seq(|anns|, k requires 0 <= k < |anns| => Keep(anns[k]));
      assert steps[..n] == seq(n, k requires 0 <= k < n => Keep(anns[..n][k]));
      CollectAllKept(anns[..n]);
      assert anns[..n] + [anns[n]] == anns;
    }
  }

  /** Once a prefix aborts, the whole sequence aborts: the first bad line
      number aborts the submit. */
  lemma {:induction false} CollectPrefixNone(steps: seq<Step>, n: nat)
    requires n <= |steps| && Collect(steps[..n]).None?
    ensures Collect(steps).None?
    decreases |steps| - n
  {
    if n < |steps| {
      assert steps[..n + 1][..n] == steps[..n];
      CollectPrefixNone(steps, n + 1);
    } else {
      assert steps[..n] == steps;
    }
  }

  /** The normalisation succeeds exactly when no draft aborts. */
  lemma NormalizedSucceedsIff(ds: seq<Draft>)
    ensures Normalized(ds).Some? <==> forall k :: 0 <= k < |ds| ==> DraftStep(ds[k]) != Abort
  {
    CollectSucceedsIff(Steps(ds));
  }

  /** The drafts of two lists send the annotations of the first followed
      by those of the second, and abort when either does. */
  lemma NormalizedAppend(ds: seq<Draft>, es: seq<Draft>)
    ensures Normalized(ds + es) ==
      if Normalized(ds).Some? && Normalized(es).Some? then Some(Normalized(ds).value + Normalized(es).value) else None
  {
    assert Steps(ds + es) == Steps(ds) + Steps(es);
    CollectAppend(Steps(ds), Steps(es));
  }

  /** One draft sends what its step says. */
  lemma NormalizedSingle(d: Draft)
    ensures Normalized([d]) == match DraftStep(d)
      case Skip => Some([])
      case Keep(a) => Some([a])
      case Abort => None
  {
    assert Steps([d]) == [DraftStep(d)];
    CollectSingle(DraftStep(d));
  }

  /** Every annotation sent has non-empty, unpadded text. */
  lemma NormalizedEntriesClean(ds: seq<Draft>)
    requires Normalized(ds).Some?
    ensures forall a :: a in Normalized(ds).value ==> a.commentText != "" && Unpadded(a.commentText)
  {
    CollectFromKept(Steps(ds));
    forall a | a in Normalized(ds).value ensures a.commentText != "" && Unpadded(a.commentText) {
      var k :| 0 <= k < |ds| && Steps(ds)[k] == Keep(a);
      DraftStepCases(ds[k]);
    }
  }

  /** A trailing blank row, as `addAnnotation` makes, sends nothing. */
  lemma AppendBlankNormalized(ds: seq<Draft>)
    ensures Normalized(AppendBlank(ds)) == Normalized(ds)
  {
    var r := AppendBlank(ds);
    assert Trim("") == "";
    assert Steps(r)[..|ds|] == Steps(ds);
  }

  /** The drafts that show the given annotations: their text and the
      decimal text of their line number. */
  function Drafts(anns: seq<AnnotationPayload>): (ds: seq<Draft>)
    ensures |ds| == |anns|
    ensures forall k :: 0 <= k < |anns| ==> ds[k] == Draft(anns[k].commentText, IntToString(anns[k].lineNumber))
  {
    seq(|anns|, k requires 0 <= k < |anns| => Draft(anns[k].commentText, IntToString(anns[k].lineNumber)))
  }

  /** The decimal text of a line number is read back as that number. */
  lemma LineOfRoundTrip(i: int)
    ensures LineOf(IntToString(i)) == Some(i)
  {
    var s := IntToString(i);
    assert Unpadded(s) by {
      assert !IsJsSpace(s[0]);
      assert !IsJsSpace(s[|s| - 1]);
    }
    TrimFixedIff(s);
    ParseIntRoundTrip(i);
  }

  /** The draft showing an annotation with non-empty, unpadded text sends
      that annotation. */
  lemma DraftStepRoundTrip(a: AnnotationPayload)
    requires a.commentText != "" && Unpadded(a.commentText)
    ensures DraftStep(Draft(a.commentText, IntToString(a.lineNumber))) == Keep(a)
  {
    TrimFixedIff(a.commentText);
    LineOfRoundTrip(a.lineNumber);
  }

  /** Normalising the drafts of unpadded, non-empty annotations gives back
      those annotations, in order: the normalisation keeps order, text and
      line numbers. */
  lemma NormalizeRoundTrip(anns: seq<AnnotationPayload>)
    requires forall k :: 0 <= k < |anns| ==> anns[k].commentText != "" && Unpadded(anns[k].commentText)
    ensures Normalized(Drafts(anns)) == Some(anns)
  {
    var ds := Drafts(anns);
    forall k | 0 <= k < |anns| ensures Steps(ds)[k] == Keep(anns[k]) {
      DraftStepRoundTrip(anns[k]);
    }
    assert Steps(ds) == seq(|anns|, k requires 0 <= k < |anns| => Keep(anns[k]));
    CollectAllKept(anns);
  }

  /** The loop that builds the review's annotations from the drafts. */
  method NormalizeAnnotations(ds: seq<Draft>) returns (r: Option<seq<AnnotationPayload>>)
    ensures r == Normalized(ds)
  {
    ghost var steps := Steps(ds);
    var anns: seq<AnnotationPayload> := [];
    var i := 0;
    while i < |ds|
      invariant 0 <= i <= |ds|
      invariant Collect(steps[..i]) == Some(anns)
    {
      assert steps[..i + 1][..i] == steps[..i];
      var text := Trim(ds[i].commentText);
      if text != "" {
        var ln := LineOf(ds[i].lineNumber);
        if ln.None? {
          CollectPrefixNone(steps, i + 1);
          return None;
        }
        anns := anns + [AnnotationPayload(text, ln.value)];
      }
      i := i + 1;
    }
    assert steps[..i] == steps;
    r := Some(anns);
  }

  // ---------------------------------------------------------------- visibility

  /** The Edit and Delete buttons show when the viewer wrote the loaded
      submission, it is pending, and no edit is under way. */
  predicate ShowEditControls(viewerId: int, s: SubmissionDict, isEditing: bool) {
    viewerId == s.user.id && s.status == Pending && !isEditing
  }

  /** For a detail loaded from the store, the buttons show (outside
      editing) exactly when the server would let the viewer update or
      delete the submission. */
  lemma EditControlsMatchServer(ss: seq<Submission>, v: SubmissionView, d: SubmissionDict, viewerId: int)
    requires SubmissionIndex(ss, v.submission.id).Some?
    requires ss[SubmissionIndex(ss, v.submission.id).value] == v.submission
    requires v.author.id == v.submission.userId
    requires SerializeSubmission(v) == d
    ensures ShowEditControls(viewerId, d, false) <==> CheckMutable(ss, viewerId, d.id).Allowed?
  {
  }

  // ---------------------------------------------------------------- the view

  class SubmissionDetail {
    const submissionId: int
    var submission: Option<SubmissionDict>
    var isEditing: bool
    var editForm: EditForm
    var overallComment: string
    var rating: int
    var drafts: seq<Draft>

    /** A view that has not loaded yet, with empty forms and one blank
        annotation row. */
    constructor (submissionId: int)
      ensures this.submissionId == submissionId && submission.None? && !isEditing
      ensures editForm == EditForm("", "", "") && ReviewFormIsInitial()
    {
      this.submissionId := submissionId;
      submission := None;
      isEditing := false;
      editForm := EditForm("", "", "");
      overallComment, rating, drafts := "", DefaultRating, [BlankDraft];
    }

    /** The review form holds its initial values. */
    predicate ReviewFormIsInitial()
      reads this
    {
      overallComment == "" && rating == DefaultRating && drafts == [BlankDraft]
    }

    /** `loadSubmission`: a loaded detail replaces the shown one and
        refills the edit form; a failure alerts and leaves the view. */
    method Load(res: Result<SubmissionDict>) returns (alerts: seq<string>, leave: bool)
      modifies this
      ensures res.Ok? ==> (alerts == [] && !leave && submission == Some(res.value)
        && editForm == EditForm(res.value.title, res.value.description, res.value.codeContent))
      ensures res.Err? ==> alerts == [LoadFailed] && leave && submission == old(submission) && editForm == old(editForm)
      ensures isEditing == old(isEditing) && overallComment == old(overallComment)
      ensures rating == old(rating) && drafts == old(drafts)
    {
      if res.Err? {
        return [LoadFailed], true;
      }
      submission := Some(res.value);
      editForm := EditForm(res.value.title, res.value.description, res.value.codeContent);
      alerts, leave := [], false;
    }

    /** `handleEdit`. */
    method HandleEdit()
      modifies this
      ensures isEditing && submission == old(submission) && editForm == old(editForm)
      ensures overallComment == old(overallComment) && rating == old(rating) && drafts == old(drafts)
    {
      isEditing := true;
    }

    /** `handleCancelEdit`: editing stops and the form shows the loaded
        submission again. */
    method HandleCancelEdit()
      requires submission.Some?
      modifies this
      ensures !isEditing && submission == old(submission)
      ensures editForm == EditForm(submission.value.title, submission.value.description, submission.value.codeContent)
      ensures overallComment == old(overallComment) && rating == old(rating) && drafts == old(drafts)
    {
      isEditing := false;
      editForm := EditForm(submission.value.title, submission.value.description, submission.value.codeContent);
    }

    /** `handleSaveEdit`: the create form's checks, then the update
        request with the edit form; on success the view reloads (a loaded
        detail refills the edit form, a failed load keeps what is shown),
        leaves editing and tells the parent; on failure only an alert. */
    method HandleSaveEdit(outcome: Option<string>, reloaded: Result<SubmissionDict>)
      returns (alerts: seq<string>, sent: Option<EditForm>, updated: bool)
      modifies this
      ensures var f := old(editForm);
        var check := ValidateFields(f.title, f.description, f.codeContent);
        && (check.Some? ==> alerts == [check.value] && sent.None? && !updated && unchanged(this))
        && (check.None? ==> sent == Some(f))
        && (check.None? && outcome.Some? ==>
              alerts == [ErrorAlert(outcome.value, UpdateFailed)] && !updated && unchanged(this))
        && (check.None? && outcome.None? ==>
              && updated && !isEditing
              && alerts == (if reloaded.Ok? then [] else [LoadFailed]) + [Updated]
              && (reloaded.Ok? ==> submission == Some(reloaded.value))
              && (reloaded.Ok? ==>
                    editForm == EditForm(reloaded.value.title, reloaded.value.description, reloaded.value.codeContent))
              && (reloaded.Err? ==> submission == old(submission) && editForm == old(editForm)))
      ensures overallComment == old(overallComment) && rating == old(rating) && drafts == old(drafts)
    {
      var f := editForm;
      var check := ValidateFields(f.title, f.description, f.codeContent);
      if check.Some? {
        return [check.value], None, false;
      }
      sent := Some(f);
      if outcome.Some? {
        return [ErrorAlert(outcome.value, UpdateFailed)], sent, false;
      }
      var loadAlerts, _ := Load(reloaded);
      isEditing := false;
      alerts, updated := loadAlerts + [Updated], true;
    }

    /** `handleDelete`: nothing without the viewer's confirmation;
        otherwise the delete request, and on success the parent is told
        and the view is left. */
    method HandleDelete(confirmed: bool, outcome: Option<string>) returns (alerts: seq<string>, requested: bool, leave: bool)
      ensures requested <==> confirmed
      ensures !confirmed ==> alerts == [] && !leave
      ensures confirmed && outcome.None? ==> alerts == [Deleted] && leave
      ensures confirmed && outcome.Some? ==> alerts == [ErrorAlert(outcome.value, DeleteFailed)] && !leave
    {
      if !confirmed {
        return [], false, false;
      }
      if outcome.None? {
        return [Deleted], true, true;
      }
      return [ErrorAlert(outcome.value, DeleteFailed)], true, false;
    }

    /** `handleSubmitReview`: an empty overall comment sends nothing; the
        drafts are normalised and a non-numeric line number sends nothing;
        otherwise the review request. On success the review form is reset
        and the view reloads as after an edit; on failure only an alert. */
    method HandleSubmitReview(outcome: Option<string>, reloaded: Result<SubmissionDict>)
      returns (alerts: seq<string>, sent: Option<ReviewPayload>)
      requires submission.Some?
      modifies this
      ensures var anns := Normalized(old(drafts));
        && (old(overallComment) == "" ==> alerts == [CommentRequired] && sent.None? && unchanged(this))
        && (old(overallComment) != "" && anns.None? ==> alerts == [LineNotNumber] && sent.None? && unchanged(this))
        && (old(overallComment) != "" && anns.Some? ==>
              sent == Some(ReviewPayload(old(submission).value.id, old(overallComment), old(rating), anns.value)))
        && (sent.Some? && outcome.Some? ==> alerts == [ErrorAlert(outcome.value, ReviewFailed)] && unchanged(this))
        && (sent.Some? && outcome.None? ==>
              && ReviewFormIsInitial()
              && alerts == (if reloaded.Ok? then [] else [LoadFailed]) + [ReviewSubmitted]
              && (reloaded.Ok? ==> submission == Some(reloaded.value))
              && (reloaded.Ok? ==>
                    editForm == EditForm(reloaded.value.title, reloaded.value.description, reloaded.value.codeContent))
              && (reloaded.Err? ==> submission == old(submission) && editForm == old(editForm)))
      ensures isEditing == old(isEditing)
    {
      if overallComment == "" {
        return [CommentRequired], None;
      }
      var anns := NormalizeAnnotations(drafts);
      if anns.None? {
        return [LineNotNumber], None;
      }
      sent := Some(ReviewPayload(submission.value.id, overallComment, rating, anns.value));
      if outcome.Some? {
        return [ErrorAlert(outcome.value, ReviewFailed)], sent;
      }
      overallComment, rating, drafts := "", DefaultRating, [BlankDraft];
      var loadAlerts, _ := Load(reloaded);
      alerts := loadAlerts + [ReviewSubmitted];
    }

    /** `addAnnotation`. */
    method AddAnnotation()
      modifies this
      ensures drafts == AppendBlank(old(drafts))
      ensures overallComment == old(overallComment) && rating == old(rating)
      ensures submission == old(submission) && isEditing == old(isEditing) && editForm == old(editForm)
    {
      drafts := AppendBlank(drafts);
    }

    /** `removeAnnotation`. */
    method RemoveAnnotation(idx: int)
      modifies this
      ensures drafts == RemoveAt(old(drafts), idx)
      ensures overallComment == old(overallComment) && rating == old(rating)
      ensures submission == old(submission) && isEditing == old(isEditing) && editForm == old(editForm)
    {
      drafts := RemoveAt(drafts, idx);
    }

    /** `updateAnnotation`. */
    method UpdateAnnotation(idx: int, field: DraftField, value: string)
      modifies this
      ensures drafts == UpdateAt(old(drafts), idx, field, value)
      ensures overallComment == old(overallComment) && rating == old(rating)
      ensures submission == old(submission) && isEditing == old(isEditing) && editForm == old(editForm)
    {
      drafts := UpdateAt(drafts, idx, field, value);
    }
  }
}
