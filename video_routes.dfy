/** The walkthrough-video handlers: the author of a submission uploads a
    video to the media service and the submission records its URL; the
    author can delete it again. The media service is outside the model:
    the handlers return the request they would send, and its answer is a
    parameter.

    The submission table declares no column for the URL. As written, the
    upload sets a plain attribute on the loaded row object (lost with the
    request) and the delete reads one that a freshly loaded row does not
    have. `UploadVideoAsWritten` and `DeleteVideoAsWritten` model that
    code; `UploadVideo` and `DeleteVideo` model the evidently intended
    behaviour, with the URL kept in `Submission.videoUrl`. */
module VideoRoutes {
  import opened Common
  import opened Models
  import opened Database
  import opened Access

  const AllowedVideoTypes: seq<string> := ["video/webm", "video/mp4", "video/quicktime"]

  /** 100 MB. */
  const MaxVideoSize: nat := 100 * 1024 * 1024

  const VideoFolder := "code_review_walkthroughs"

  // the detail texts of the errors raised and the success messages
  const VideoNotFound := "Submission not found"
  const UploadNotOwner := "You can only upload videos for your own submissions"
  const InvalidType := "Invalid file type. Allowed: video/webm, video/mp4, video/quicktime"
  const TooLarge := "File too large. Maximum size is 100MB"
  const UploadFailed := "Failed to upload video: "
  const Uploaded := "Video uploaded successfully"
  const DeleteVideoNotOwner := "Not authorized to delete this video"
  const NoVideo := "No video found for this submission"
  const DeleteFailed := "Failed to delete video: "
  const Deleted := "Video deleted successfully"

  /** The upload response. */
  datatype VideoUploaded = VideoUploaded(message: string, videoUrl: string, submissionId: int)

  /** The upload request sent to the media service. */
  datatype UploadRequest = UploadRequest(resourceType: string, folder: string, publicId: string, overwrite: bool)

  /** The media service's answer: the uploaded asset's secure URL, or the
      error it raised. */
  datatype MediaOutcome = MediaOk(secureUrl: string) | MediaFailed(error: string)

  /** The asset name of a submission's video: one per submission and
      uploader, so a new upload replaces the old one. */
  function AssetName(submissionId: int, userId: int): (n: string)
    ensures |n| > 11 && n[..11] == "submission_"
  {
    "submission_" + IntToString(submissionId) + "_user_" + IntToString(userId)
  }

  /** The asset's full public id: inside the videos folder, followed by
      the asset name. */
  function AssetPath(submissionId: int, userId: int): (p: string)
    ensures |p| > |VideoFolder| + 12 && p[..|VideoFolder| + 1] == VideoFolder + "/"
    ensures p[|VideoFolder| + 1..] == AssetName(submissionId, userId)
  {
    VideoFolder + "/" + AssetName(submissionId, userId)
  }

  /** The text of an integer holds no underscore. */
  lemma NoUnderscore(i: int, k: nat)
    requires k < |IntToString(i)|
    ensures IntToString(i)[k] != '_'
  {
  }

  /** `a + "_user_" + b` determines `a` and `b` when neither holds an
      underscore. */
  lemma SplitAtUser(a1: string, b1: string, a2: string, b2: string)
    requires a1 + "_user_" + b1 == a2 + "_user_" + b2
    requires forall k :: 0 <= k < |a1| ==> a1[k] != '_'
    requires forall k :: 0 <= k < |a2| ==> a2[k] != '_'
    ensures a1 == a2 && b1 == b2
  {
    var s1, s2 := a1 + "_user_" + b1, a2 + "_user_" + b2;
    assert s1[|a1|] == '_' && s2[|a2|] == '_';
    assert forall k :: 0 <= k < |a1| ==> s1[k] == a1[k];
    assert forall k :: 0 <= k < |a2| ==> s2[k] == a2[k];
    if |a1| == |a2| {
      assert a1 == s1[..|a1|] && a2 == s2[..|a2|];
      assert b1 == s1[|a1| + 6..] && b2 == s2[|a2| + 6..];
    } else {
      assert false;
    }
  }

  /** Different (submission, user) pairs get different assets: one user's
      upload never overwrites another submission's video. */
  lemma AssetNameInjective(s1: int, u1: int, s2: int, u2: int)
    requires AssetName(s1, u1) == AssetName(s2, u2)
    ensures s1 == s2 && u1 == u2
  {
    var n1, n2 := AssetName(s1, u1), AssetName(s2, u2);
    var a1, b1, a2, b2 := IntToString(s1), IntToString(u1), IntToString(s2), IntToString(u2);
    assert n1[11..] == a1 + "_user_" + b1;
    assert n2[11..] == a2 + "_user_" + b2;
    forall k | 0 <= k < |a1| ensures a1[k] != '_' { NoUnderscore(s1, k); }
    forall k | 0 <= k < |a2| ensures a2[k] != '_' { NoUnderscore(s2, k); }
    SplitAtUser(a1, b1, a2, b2);
    IntToStringInjective(s1, s2);
    IntToStringInjective(u1, u2);
  }

  /** Different (submission, user) pairs get different public ids, so a
      delete by public id removes only that pair's video. */
  lemma AssetPathInjective(s1: int, u1: int, s2: int, u2: int)
    requires AssetPath(s1, u1) == AssetPath(s2, u2)
    ensures s1 == s2 && u1 == u2
  {
    assert AssetName(s1, u1) == AssetPath(s1, u1)[|VideoFolder| + 1..];
    AssetNameInjective(s1, u1, s2, u2);
  }

  /** The upload's checks in order: the submission exists, the caller is
      its author, the content type is allowed, and the file is at most
      100 MB. On success, the row's index. */
  function UploadCheck(ss: seq<Submission>, callerId: int, submissionId: int, contentType: Option<string>, size: nat): (r: Result<nat>)
    ensures r.Ok? <==>
      && CheckOwner(ss, callerId, submissionId).Allowed?
      && contentType.Some? && contentType.value in AllowedVideoTypes
      && size <= MaxVideoSize
    ensures r.Ok? ==> r.value == CheckOwner(ss, callerId, submissionId).index
    ensures CheckOwner(ss, callerId, submissionId) == Denied(Missing) ==> r == Err(NotFound, VideoNotFound)
    ensures CheckOwner(ss, callerId, submissionId) == Denied(NotOwner) ==> r == Err(Forbidden, UploadNotOwner)
    ensures r.Err? && CheckOwner(ss, callerId, submissionId).Allowed? ==> r.code == BadRequest
  {
    match CheckOwner(ss, callerId, submissionId)
    case Denied(Missing) => Err(NotFound, VideoNotFound)
    case Denied(_) => Err(Forbidden, UploadNotOwner)
    case Allowed(k) =>
      if contentType.None? || contentType.value !in AllowedVideoTypes then Err(BadRequest, InvalidType)
      else if size > MaxVideoSize then Err(BadRequest, TooLarge)
      else Ok(k)
  }

  /** The request the upload sends for the caller's video of a
      submission. */
  function UploadRequestFor(submissionId: int, userId: int): (q: UploadRequest)
    ensures q.folder == VideoFolder && q.overwrite && q.resourceType == "video"
    ensures q.publicId == AssetName(submissionId, userId)
  {
    UploadRequest("video", VideoFolder, AssetName(submissionId, userId), true)
  }

  // ---------------------------------------------------------------- as written

  /** POST /api/submissions/upload-video as written: the checks, the
      upload, then an assignment to an attribute the row does not map, so
      the store is left as it was while the response reports the URL. */
  function UploadVideoAsWritten(ss: seq<Submission>, callerId: int, submissionId: int, contentType: Option<string>,
                                size: nat, media: MediaOutcome): (r: Result<VideoUploaded>)
    ensures r.Ok? <==> UploadCheck(ss, callerId, submissionId, contentType, size).Ok? && media.MediaOk?
    ensures r.Ok? ==> r.value == VideoUploaded(Uploaded, media.secureUrl, submissionId)
    ensures UploadCheck(ss, callerId, submissionId, contentType, size).Ok? && media.MediaFailed? ==>
      r == Err(ServerError, UploadFailed + media.error)
  {
    match UploadCheck(ss, callerId, submissionId, contentType, size)
    case Err(c, d) => Err(c, d)
    case Ok(_) =>
      match media
      case MediaFailed(e) => Err(ServerError, UploadFailed + e)
      case MediaOk(url) => Ok(VideoUploaded(Uploaded, url, submissionId))
  }

  /** DELETE /api/submissions/{id}/video as written: after the two
      guards, reading the unmapped attribute on a freshly loaded row
      raises before the media service is called, outside the handler's
      error handling. */
  function DeleteVideoAsWritten(ss: seq<Submission>, callerId: int, submissionId: int): (r: Result<string>)
    ensures r.Err?
    ensures CheckOwner(ss, callerId, submissionId) == Denied(Missing) ==> r == Err(NotFound, VideoNotFound)
    ensures CheckOwner(ss, callerId, submissionId) == Denied(NotOwner) ==> r == Err(Forbidden, DeleteVideoNotOwner)
    ensures CheckOwner(ss, callerId, submissionId).Allowed? ==> r == Err(ServerError, InternalServerError)
  {
    match CheckOwner(ss, callerId, submissionId)
    case Denied(Missing) => Err(NotFound, VideoNotFound)
    case Denied(_) => Err(Forbidden, DeleteVideoNotOwner)
    case Allowed(_) => Err(ServerError, InternalServerError)
  }

  /** The discrepancy on a concrete store: the author of submission 1
      uploads a webm video and gets its URL back, yet deleting it fails
      with a 500, and no call ever succeeds in deleting it. */
  lemma UploadedVideoNeverDeletableAsWritten()
    ensures var ss := [Submission(1, 7, "t", "d", "c", "python", Pending, None)];
      && UploadVideoAsWritten(ss, 7, 1, Some("video/webm"), 1024, MediaOk("https://media/v.webm")).Ok?
      && DeleteVideoAsWritten(ss, 7, 1) == Err(ServerError, InternalServerError)
  {
    var ss := [Submission(1, 7, "t", "d", "c", "python", Pending, None)];
    assert SubmissionIndex(ss, 1) == Some(0);
    assert "video/webm" in AllowedVideoTypes;
  }

  // ---------------------------------------------------------------- as intended

  /** A stored URL counts only when non-empty (Python truthiness). */
  predicate HasVideo(s: Submission) {
    s.videoUrl.Some? && s.videoUrl.value != ""
  }

  /** The upload with the URL kept on the row: every failure before the
      service is called sends nothing and stores nothing; a service
      failure rolls back and is a 500; otherwise the row's URL becomes the
      service's secure URL and nothing else changes. */
  method UploadVideo(db: Db, caller: User, submissionId: int, contentType: Option<string>, size: nat, media: MediaOutcome)
    returns (r: Result<VideoUploaded>, sent: Option<UploadRequest>)
    requires db.Valid()
    modifies db
    ensures db.Valid()
    ensures var check := UploadCheck(old(db.submissions), caller.id, submissionId, contentType, size);
      && (check.Err? ==> r == Err(check.code, check.detail) && sent.None? && unchanged(db))
      && (check.Ok? ==> sent == Some(UploadRequestFor(submissionId, caller.id)))
      && (check.Ok? && media.MediaFailed? ==> r == Err(ServerError, UploadFailed + media.error) && unchanged(db))
      && (check.Ok? && media.MediaOk? ==>
            && r == Ok(VideoUploaded(Uploaded, media.secureUrl, submissionId))
            && db.submissions == old(db.submissions)[check.value :=
                 old(db.submissions)[check.value].(videoUrl := Some(media.secureUrl))])
    ensures db.users == old(db.users) && db.tags == old(db.tags) && db.links == old(db.links)
    ensures db.reviews == old(db.reviews) && db.annotations == old(db.annotations)
  {
    var check := UploadCheck(db.submissions, caller.id, submissionId, contentType, size);
    if check.Err? {
      return Err(check.code, check.detail), None;
    }
    sent := Some(UploadRequestFor(submissionId, caller.id));
    match media {
      case MediaFailed(e) =>
        r := Err(ServerError, UploadFailed + e);
      case MediaOk(url) =>
        SetVideoUrl(db, check.value, Some(url));
        r := Ok(VideoUploaded(Uploaded, url, submissionId));
    }
  }

  /** The row's URL assignment and its commit. */
  method SetVideoUrl(db: Db, k: nat, url: Option<string>)
    requires db.Valid() && k < |db.submissions|
    modifies db
    ensures db.Valid()
    ensures db.submissions == old(db.submissions)[k := old(db.submissions)[k].(videoUrl := url)]
    ensures db.users == old(db.users) && db.tags == old(db.tags) && db.links == old(db.links)
    ensures db.reviews == old(db.reviews) && db.annotations == old(db.annotations)
  {
    var ss := db.submissions[k := db.submissions[k].(videoUrl := url)];
    forall i | 0 <= i < |ss|
      ensures 1 <= ss[i].id < db.nextSubmissionId && |ss[i].language| <= LanguageMaxLength
      ensures HasUser(db.users, ss[i].userId)
    {
    }
    db.submissions := ss;
  }

  /** The delete with the URL kept on the row: 404, 403, then 404 when
      the row has no video; otherwise the service is asked to destroy the
      asset, a failure there is a 500 that changes nothing, and on success
      the row's URL is cleared. */
  method DeleteVideo(db: Db, caller: User, submissionId: int, destroyError: Option<string>)
    returns (r: Result<string>, sent: Option<string>)
    requires db.Valid()
    modifies db
    ensures db.Valid()
    ensures var c := CheckOwner(old(db.submissions), caller.id, submissionId);
      && (c == Denied(Missing) ==> r == Err(NotFound, VideoNotFound))
      && (c == Denied(NotOwner) ==> r == Err(Forbidden, DeleteVideoNotOwner))
      && (c.Allowed? && !HasVideo(old(db.submissions)[c.index]) ==> r == Err(NotFound, NoVideo))
      && (sent.Some? <==> c.Allowed? && HasVideo(old(db.submissions)[c.index]))
      && (sent.Some? ==> sent.value == AssetPath(submissionId, caller.id))
      && (sent.Some? && destroyError.Some? ==> r == Err(ServerError, DeleteFailed + destroyError.value))
      && (r.Ok? <==> sent.Some? && destroyError.None?)
      && (r.Ok? ==> (r.value == Deleted &&
            db.submissions == old(db.submissions)[c.index := old(db.submissions)[c.index].(videoUrl := None)]))
    ensures r.Err? ==> unchanged(db)
    ensures db.users == old(db.users) && db.tags == old(db.tags) && db.links == old(db.links)
    ensures db.reviews == old(db.reviews) && db.annotations == old(db.annotations)
  {
    var c := CheckOwner(db.submissions, caller.id, submissionId);
    if c == Denied(Missing) {
      return Err(NotFound, VideoNotFound), None;
    }
    if c == Denied(NotOwner) {
      return Err(Forbidden, DeleteVideoNotOwner), None;
    }
    if !HasVideo(db.submissions[c.index]) {
      return Err(NotFound, NoVideo), None;
    }
    sent := Some(AssetPath(submissionId, caller.id));
    if destroyError.Some? {
      return Err(ServerError, DeleteFailed + destroyError.value), sent;
    }
    SetVideoUrl(db, c.index, None);
    r := Ok(Deleted);
  }

  /** Intended behaviour: once the author's upload has stored a non-empty
      URL, the same author's delete passes every guard and asks the
      service to destroy the very asset the upload wrote. */
  lemma UploadedVideoIsDeletable(ss: seq<Submission>, callerId: int, submissionId: int, url: string)
    requires CheckOwner(ss, callerId, submissionId).Allowed? && url != ""
    ensures var k := CheckOwner(ss, callerId, submissionId).index;
      var after := ss[k := ss[k].(videoUrl := Some(url))];
      && CheckOwner(after, callerId, submissionId) == Allowed(k)
      && HasVideo(after[k])
      && AssetPath(submissionId, callerId) == VideoFolder + "/" + UploadRequestFor(submissionId, callerId).publicId
  {
    var k := CheckOwner(ss, callerId, submissionId).index;
    var after := ss[k := ss[k].(videoUrl := Some(url))];
    FindFirstSameMatches(ss, (s: Submission) => s.id == submissionId, after, (s: Submission) => s.id == submissionId);
  }
}
