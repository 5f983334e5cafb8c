/** The submission handlers: create (with tag reuse), list, read one,
    update and delete. Each takes the database and the authenticated
    caller, checks in the handler's own order and returns the handler's
    result or the HTTP error it raises. */
module SubmissionRoutes {
  import opened Common
  import opened Models
  import opened Schemas
  import opened Database
  import opened Access
  import opened Helpers

  // the detail texts of the errors raised
  const OnlyStudents := "Only students can create submissions."
  const EditNotFound := "Submission not found."
  const UpdateNotOwner := "Not authorized to update this submission."
  const UpdateNotPending := "Only pending submissions can be updated."
  const DeleteNotOwner := "Not authorized to delete this submission."
  const DeleteNotPending := "Only pending submissions can be deleted."
  const ReadNotFound := "Submission not found"
  const ReadNotOwner := "Not authorized"

  // ---------------------------------------------------------------- create

  /** Inserting a submission row with the counter's id, a language that
      fits and a stored owner keeps the table invariants. */
  lemma InsertSubmissionValid(ss: seq<Submission>, next: int, us: seq<User>, ls: seq<SubmissionTag>, s: Submission)
    requires SubmissionsValid(ss, next) && OwnersStored(ss, us) && LinksValid(ls, next)
    requires s.id == next && |s.language| <= LanguageMaxLength && UserIndex(us, s.userId).Some?
    ensures SubmissionsValid(ss + [s], next + 1) && OwnersStored(ss + [s], us) && LinksValid(ls, next + 1)
  {
    var ss' := ss + [s];
    forall i | 0 <= i < |ss'| ensures 1 <= ss'[i].id < next + 1 && |ss'[i].language| <= LanguageMaxLength
      && UserIndex(us, ss'[i].userId).Some?
    {
      if i < |ss| { assert ss'[i] == ss[i]; }
    }
    forall i, j | 0 <= i < j < |ss'| ensures ss'[i].id != ss'[j].id {
      assert ss'[i] == ss[i];
      if j < |ss| { assert ss'[j] == ss[j]; }
    }
  }

  /** The created submission as returned: its row and the tag names added
      in the loop. */
  datatype CreatedSubmission = CreatedSubmission(submission: Submission, tags: seq<string>)

  /** The id of the tag the lookup by name finds (0 when there is none). */
  function TagIdOf(ts: seq<Tag>, name: string): int {
    match TagIndex(ts, name)
    case Some(k) => ts[k].id
    case None => 0
  }

  /** The `submission_tags` rows the tag loop adds for `names`, one per
      name, in order. */
  function ExpectedLinks(submissionId: int, ts: seq<Tag>, names: seq<string>): (r: seq<SubmissionTag>)
    ensures |r| == |names|
    ensures forall k :: 0 <= k < |names| ==> r[k] == SubmissionTag(submissionId, TagIdOf(ts, names[k]))
  {
    seq(|names|, k requires 0 <= k < |names| => SubmissionTag(submissionId, TagIdOf(ts, names[k])))
  }

  /** Under unique tag ids, two names that find tags find the same tag
      only when they are the same name. */
  lemma TagIdOfInjective(ts: seq<Tag>, next: int, a: string, b: string)
    requires TagsValid(ts, next)
    requires TagIndex(ts, a).Some? && TagIndex(ts, b).Some?
    requires TagIdOf(ts, a) == TagIdOf(ts, b)
    ensures a == b
  {
    var i, j := TagIndex(ts, a).value, TagIndex(ts, b).value;
    assert ts[i].id == ts[j].id;
  }

  /** The link the loop is about to add is already there (committed or
      pending) exactly when its tag name occurred earlier in the payload. */
  lemma ExpectedLinkMember(submissionId: int, ts: seq<Tag>, next: int, names: seq<string>, name: string)
    requires TagsValid(ts, next)
    requires forall n :: n in names ==> TagIndex(ts, n).Some?
    requires TagIndex(ts, name).Some?
    ensures SubmissionTag(submissionId, TagIdOf(ts, name)) in ExpectedLinks(submissionId, ts, names) <==> name in names
  {
    var e := ExpectedLinks(submissionId, ts, names);
    if SubmissionTag(submissionId, TagIdOf(ts, name)) in e {
      var k :| 0 <= k < |e| && e[k] == SubmissionTag(submissionId, TagIdOf(ts, name));
      assert names[k] in names;
      TagIdOfInjective(ts, next, names[k], name);
    }
    if name in names {
      var k :| 0 <= k < |names| && names[k] == name;
      assert e[k] == SubmissionTag(submissionId, TagIdOf(ts, name));
    }
  }

  /** Distinct names give distinct links. */
  lemma ExpectedLinksDistinct(submissionId: int, ts: seq<Tag>, next: int, names: seq<string>)
    requires TagsValid(ts, next)
    requires forall n :: n in names ==> TagIndex(ts, n).Some?
    requires Distinct(names)
    ensures Distinct(ExpectedLinks(submissionId, ts, names))
  {
    var e := ExpectedLinks(submissionId, ts, names);
    forall i, j | 0 <= i < j < |e| ensures e[i] != e[j] {
      if e[i] == e[j] {
        assert names[i] in names && names[j] in names;
        TagIdOfInjective(ts, next, names[i], names[j]);
      }
    }
  }

  /** Creating a tag does not move the links of names that already had
      one. */
  lemma ExpectedLinksNewTag(submissionId: int, ts: seq<Tag>, t: Tag, names: seq<string>)
    requires forall n :: n in names ==> TagIndex(ts, n).Some?
    ensures ExpectedLinks(submissionId, ts + [t], names) == ExpectedLinks(submissionId, ts, names)
  {
    forall k | 0 <= k < |names|
      ensures TagIdOf(ts + [t], names[k]) == TagIdOf(ts, names[k])
    {
      assert names[k] in names;
      TagIndexAppend(ts, t, names[k]);
    }
  }

  /** Creating a tag keeps the unique-id, unique-name invariant when the
      name is new and the id is the counter's. */
  lemma TagsValidAppend(ts: seq<Tag>, next: int, name: string)
    requires TagsValid(ts, next) && TagIndex(ts, name).None?
    ensures TagsValid(ts + [Tag(next, name)], next + 1)
    ensures TagIndex(ts + [Tag(next, name)], name) == Some(|ts|)
  {
    var ts' := ts + [Tag(next, name)];
    forall i | 0 <= i < |ts'| ensures 1 <= ts'[i].id < next + 1 {
      if i < |ts| { assert ts'[i] == ts[i]; }
    }
    forall i, j | 0 <= i < j < |ts'| ensures ts'[i].id != ts'[j].id && ts'[i].name != ts'[j].name {
      assert ts'[i] == ts[i];
      if j < |ts| { assert ts'[j] == ts[j]; }
    }
    FindFirstAppend(ts, Tag(next, name), (x: Tag) => x.name == name);
  }

  /** The tag loop of the create handler, for the new submission `sid`
      and the payload's tag names. Each name is looked up and a tag created
      when absent; creating a tag commits, which also commits the links
      added so far (`links`), while the links added since (`pending`) wait
      for the next commit. A name seen before adds a second, identical
      link, which the composite key rejects at the next flush: the loop
      stops with `ok` false, keeping the created tags and the committed
      links and dropping the pending ones. */
  method LinkTags(tags0: seq<Tag>, nextTag0: int, links0: seq<SubmissionTag>, sid: int, names: seq<string>)
    returns (ok: bool, tags: seq<Tag>, nextTag: int, links: seq<SubmissionTag>, tagNames: seq<string>)
    requires TagsValid(tags0, nextTag0) && LinksValid(links0, sid)
    ensures ok <==> Distinct(names)
    ensures TagsValid(tags, nextTag) && LinksValid(links, sid + 1)
    ensures tags0 <= tags && links0 <= links
    ensures forall k :: |tags0| <= k < |tags| ==> tags[k].name in names && TagIndex(tags0, tags[k].name).None?
    ensures forall k :: |links0| <= k < |links| ==> links[k].submissionId == sid
    ensures ok ==> tagNames == names
    ensures ok ==> forall n :: n in names ==> TagIndex(tags, n).Some?
    ensures ok ==> links == links0 + ExpectedLinks(sid, tags, names)
  {
    tags, nextTag, links, tagNames := tags0, nextTag0, links0, [];
    var pending: seq<SubmissionTag> := [];
    var i := 0;
    assert links0 + [] == links0 + ExpectedLinks(sid, tags0, []);
    while i < |names|
      invariant 0 <= i <= |names|
      invariant tagNames == names[..i]
      invariant TagLoop(tags0, links0, sid, names[..i], tags, nextTag, links, pending)
    {
      var name := names[i];
      var dup, tagName;
      dup, tags, nextTag, links, pending, tagName := TagStep(tags0, links0, sid, names[..i], name, tags, nextTag, links, pending);
      if dup {
        ok := false;
        assert !Distinct(names) by {
          var j :| 0 <= j < i && names[..i][j] == name;
          assert names[j] == names[i];
        }
        TagLoopExit(tags0, links0, sid, names[..i], names, tags, nextTag, links, pending);
        return;
      }
      assert names[..i + 1] == names[..i] + [name];
      tagNames := tagNames + [tagName];
      i := i + 1;
    }
    assert names[..i] == names;
    TagLoopExit(tags0, links0, sid, names, names, tags, nextTag, links, pending);
    links := links + pending;
    ok := true;
  }

  /** What holds after the loop has handled the names `seen`: the tags
      stored so far extend the original ones and each new one is named in
      `seen` and was missing before, and the link facts below hold. */
  ghost predicate TagLoop(tags0: seq<Tag>, links0: seq<SubmissionTag>, sid: int, seen: seq<string>,
                          tags: seq<Tag>, nextTag: int, links: seq<SubmissionTag>, pending: seq<SubmissionTag>)
  {
    NewTagsNamed(tags0, tags, seen) && LinkFacts(links0, sid, seen, tags, nextTag, links, pending)
  }

  ghost predicate NewTagsNamed(tags0: seq<Tag>, tags: seq<Tag>, seen: seq<string>) {
    && tags0 <= tags
    && (forall k :: |tags0| <= k < |tags| ==> tags[k].name in seen && TagIndex(tags0, tags[k].name).None?)
  }

  /** The names seen are distinct and all have a valid stored tag; the
      committed links followed by the pending ones are the original links
      followed by one link per name seen, all of the new submission. */
  ghost predicate LinkFacts(links0: seq<SubmissionTag>, sid: int, seen: seq<string>,
                            tags: seq<Tag>, nextTag: int, links: seq<SubmissionTag>, pending: seq<SubmissionTag>)
  {
    && Distinct(seen)
    && TagsValid(tags, nextTag) && links0 <= links
    && (forall n :: n in seen ==> TagIndex(tags, n).Some?)
    && links + pending == links0 + ExpectedLinks(sid, tags, seen)
    && LinksValid(links + pending, sid + 1)
    && (forall k :: |links0| <= k < |links| ==> links[k].submissionId == sid)
    && (forall l :: l in pending ==> l.submissionId == sid)
  }

  /** The loop's facts give the promised outcome for any `names` that
      contains every name seen. */
  lemma TagLoopExit(tags0: seq<Tag>, links0: seq<SubmissionTag>, sid: int, seen: seq<string>, names: seq<string>,
                    tags: seq<Tag>, nextTag: int, links: seq<SubmissionTag>, pending: seq<SubmissionTag>)
    requires TagLoop(tags0, links0, sid, seen, tags, nextTag, links, pending)
    requires forall n :: n in seen ==> n in names
    ensures TagsValid(tags, nextTag) && LinksValid(links, sid + 1) && LinksValid(links + pending, sid + 1)
    ensures tags0 <= tags && links0 <= links && links0 <= links + pending
    ensures forall k :: |tags0| <= k < |tags| ==> tags[k].name in names && TagIndex(tags0, tags[k].name).None?
    ensures forall k :: |links0| <= k < |links| ==> links[k].submissionId == sid
    ensures forall k :: |links0| <= k < |links + pending| ==> (links + pending)[k].submissionId == sid
  {
    DistinctPrefix(links, pending);
    var all := links + pending;
    forall k | 0 <= k < |links| ensures links[k].submissionId < sid + 1 {
      assert all[k] == links[k];
    }
    forall k | |links0| <= k < |all| ensures all[k].submissionId == sid {
      if k >= |links| { assert all[k] == pending[k - |links|]; assert pending[k - |links|] in pending; }
    }
  }

  /** One turn of the tag loop for `name`: find or create the tag (a
      creation commits the pending links), then add the link, or report
      `dup` when the same link is already committed or pending. */
  method TagStep(tags0: seq<Tag>, links0: seq<SubmissionTag>, sid: int, seen: seq<string>, name: string,
                 tags: seq<Tag>, nextTag: int, links: seq<SubmissionTag>, pending: seq<SubmissionTag>)
    returns (dup: bool, tags': seq<Tag>, nextTag': int, links': seq<SubmissionTag>, pending': seq<SubmissionTag>, tagName: string)
    requires LinksValid(links0, sid)
    requires TagLoop(tags0, links0, sid, seen, tags, nextTag, links, pending)
    ensures dup <==> name in seen
    ensures dup ==> TagLoop(tags0, links0, sid, seen, tags', nextTag', links', pending')
    ensures !dup ==> tagName == name && TagLoop(tags0, links0, sid, seen + [name], tags', nextTag', links', pending')
  {
    tags', nextTag', links', pending' := tags, nextTag, links, pending;
    if TagIndex(tags, name).None? {
      CreateTagStep(tags0, links0, sid, seen, name, tags, nextTag, links, pending);
      tags' := tags + [Tag(nextTag, name)];
      nextTag' := nextTag + 1;
      // the tag's commit also commits the links added so far
      links' := links + pending;
      pending' := [];
    } else {
      NewTagsNamedGrow(tags0, tags, seen, name);
    }
    var tag := tags'[TagIndex(tags', name).value];
    tagName := tag.name;
    var link := SubmissionTag(sid, tag.id);
    LinkStep(links0, sid, seen, name, tags', nextTag', links', pending');
    dup := link in links' || link in pending';
    if !dup {
      pending' := pending' + [link];
    }
  }

  /** Naming one more name keeps the new tags named. */
  lemma NewTagsNamedGrow(tags0: seq<Tag>, tags: seq<Tag>, seen: seq<string>, name: string)
    requires NewTagsNamed(tags0, tags, seen)
    ensures NewTagsNamed(tags0, tags, seen + [name])
  {
    forall k | |tags0| <= k < |tags| ensures tags[k].name in seen + [name] {
    }
  }

  /** Creating the tag for a name the loop has not seen: the new tags are
      named by `seen` and the name, and the link facts hold with the
      pending links now committed. */
  lemma CreateTagStep(tags0: seq<Tag>, links0: seq<SubmissionTag>, sid: int, seen: seq<string>, name: string,
                      tags: seq<Tag>, nextTag: int, links: seq<SubmissionTag>, pending: seq<SubmissionTag>)
    requires TagLoop(tags0, links0, sid, seen, tags, nextTag, links, pending)
    requires TagIndex(tags, name).None?
    ensures name !in seen
    ensures TagIndex(tags + [Tag(nextTag, name)], name).Some?
    ensures NewTagsNamed(tags0, tags + [Tag(nextTag, name)], seen + [name])
    ensures LinkFacts(links0, sid, seen, tags + [Tag(nextTag, name)], nextTag + 1, links + pending, [])
  {
    NewTagStep(tags0, tags, nextTag, seen, name, sid);
    assert (links + pending) + [] == links + pending;
  }

  /** With the name's tag stored, its link is already committed or
      pending exactly when the name was seen; otherwise adding it as
      pending extends the link facts to the name. */
  lemma LinkStep(links0: seq<SubmissionTag>, sid: int, seen: seq<string>, name: string,
                 tags: seq<Tag>, nextTag: int, links: seq<SubmissionTag>, pending: seq<SubmissionTag>)
    requires LinksValid(links0, sid)
    requires LinkFacts(links0, sid, seen, tags, nextTag, links, pending)
    requires TagIndex(tags, name).Some?
    ensures var link := SubmissionTag(sid, tags[TagIndex(tags, name).value].id);
      && (link in links || link in pending <==> name in seen)
      && tags[TagIndex(tags, name).value].name == name
      && (name !in seen ==> LinkFacts(links0, sid, seen + [name], tags, nextTag, links, pending + [link]))
  {
    var link := SubmissionTag(sid, tags[TagIndex(tags, name).value].id);
    assert link == SubmissionTag(sid, TagIdOf(tags, name));
    ExpectedLinkMember(sid, tags, nextTag, seen, name);
    NoEarlierLinks(links0, sid, link);
    assert link in links || link in pending <==> link in links + pending;
    if name !in seen {
      ExpectedLinksSnoc(sid, tags, seen, name);
      DistinctSnoc(seen, name);
      DistinctSnoc(links + pending, link);
      assert (links + pending) + [link] == links + (pending + [link]);
      forall n | n in seen + [name] ensures TagIndex(tags, n).Some? {
      }
    }
  }

  /** A link of the new submission is not among the links stored before
      it. */
  lemma NoEarlierLinks(links0: seq<SubmissionTag>, sid: int, link: SubmissionTag)
    requires LinksValid(links0, sid) && link.submissionId == sid
    ensures link !in links0
  {
  }

  /** One more name adds its link at the end. */
  lemma ExpectedLinksSnoc(sid: int, ts: seq<Tag>, names: seq<string>, name: string)
    ensures ExpectedLinks(sid, ts, names + [name]) == ExpectedLinks(sid, ts, names) + [SubmissionTag(sid, TagIdOf(ts, name))]
  {
    var a, b := ExpectedLinks(sid, ts, names + [name]), ExpectedLinks(sid, ts, names) + [SubmissionTag(sid, TagIdOf(ts, name))];
    forall k | 0 <= k < |a| ensures a[k] == b[k] {
      assert (names + [name])[k] == if k < |names| then names[k] else name;
    }
  }

  /** The loop step that creates a tag keeps the loop's facts about tags
      and about the links expected so far. */
  lemma NewTagStep(tags0: seq<Tag>, tags: seq<Tag>, nextTag: int, seen: seq<string>, name: string, sid: int)
    requires TagsValid(tags, nextTag) && tags0 <= tags && TagIndex(tags, name).None?
    requires forall n :: n in seen ==> TagIndex(tags, n).Some?
    requires forall k :: |tags0| <= k < |tags| ==> tags[k].name in seen && TagIndex(tags0, tags[k].name).None?
    ensures TagsValid(tags + [Tag(nextTag, name)], nextTag + 1)
    ensures TagIndex(tags + [Tag(nextTag, name)], name).Some?
    ensures forall n :: n in seen + [name] ==> TagIndex(tags + [Tag(nextTag, name)], n).Some?
    ensures forall k :: |tags0| <= k < |tags| + 1 ==>
      (tags + [Tag(nextTag, name)])[k].name in seen + [name] && TagIndex(tags0, (tags + [Tag(nextTag, name)])[k].name).None?
    ensures ExpectedLinks(sid, tags + [Tag(nextTag, name)], seen) == ExpectedLinks(sid, tags, seen)
    ensures tags0 <= tags + [Tag(nextTag, name)]
  {
    var tag := Tag(nextTag, name);
    var t := tags + [tag];
    TagsValidAppend(tags, nextTag, name);
    ExpectedLinksNewTag(sid, tags, tag, seen);
    forall n | n in seen + [name] ensures TagIndex(t, n).Some? {
      if n in seen { TagIndexAppend(tags, tag, n); }
    }
    forall k | |tags0| <= k < |t| ensures t[k].name in seen + [name] && TagIndex(tags0, t[k].name).None? {
      if k < |tags| {
        assert t[k] == tags[k];
      } else {
        assert t[k] == tag;
        assert forall j :: 0 <= j < |tags0| ==> tags0[j] == tags[j];
      }
    }
  }

  /** Runs the tag loop for the just-inserted submission `sid` (which no
      link names yet) against the stored tags and links, and stores what
      it leaves behind. */
  method AttachTags(db: Db, sid: int, names: seq<string>) returns (ok: bool, tagNames: seq<string>)
    requires db.Valid() && sid == db.nextSubmissionId - 1 && LinksValid(db.links, sid)
    modifies db
    ensures db.Valid()
    ensures db.users == old(db.users) && db.submissions == old(db.submissions)
    ensures db.reviews == old(db.reviews) && db.annotations == old(db.annotations)
    ensures db.nextSubmissionId == old(db.nextSubmissionId)
    ensures ok <==> Distinct(names)
    ensures old(db.tags) <= db.tags && old(db.links) <= db.links
    ensures forall k :: |old(db.links)| <= k < |db.links| ==> db.links[k].submissionId == sid
    ensures forall k :: |old(db.tags)| <= k < |db.tags| ==>
      db.tags[k].name in names && TagIndex(old(db.tags), db.tags[k].name).None?
    ensures ok ==> tagNames == names && db.links == old(db.links) + ExpectedLinks(sid, db.tags, names)
    ensures ok ==> forall n :: n in names ==> TagIndex(db.tags, n).Some?
  {
    var tags, nextTag, links;
    ok, tags, nextTag, links, tagNames := LinkTags(db.tags, db.nextTagId, db.links, sid, names);
    db.tags, db.nextTagId, db.links := tags, nextTag, links;
  }

  /** What the `varchar(50)` column stores for a language: the value when
      it fits; when it is longer, its first 50 characters if everything
      past them is a space (the store drops trailing spaces beyond the
      column's length); otherwise nothing, and the insert fails. */
  function StoredLanguage(language: string): (r: Option<string>)
    ensures r.None? <==> exists k :: LanguageMaxLength <= k < |language| && language[k] != ' '
    ensures r.Some? ==> |r.value| <= LanguageMaxLength && r.value <= language
    ensures r.Some? ==> forall k :: |r.value| <= k < |language| ==> language[k] == ' '
    ensures |language| <= LanguageMaxLength ==> r == Some(language)
  {
    if |language| <= LanguageMaxLength then Some(language)
    else if forall k :: LanguageMaxLength <= k < |language| ==> language[k] == ' ' then Some(language[..LanguageMaxLength])
    else None
  }

  /** The row insert and its commit: a language the column cannot hold
      fails the commit with a 500 and stores nothing; otherwise the row
      gets the next id, the stored form of the language, the default
      status and no video. */
  method InsertSubmission(db: Db, userId: int, payload: SubmissionCreate) returns (r: Result<Submission>)
    requires db.Valid() && UserIndex(db.users, userId).Some?
    modifies db
    ensures db.Valid()
    ensures r.Err? <==> StoredLanguage(payload.language).None?
    ensures r.Err? ==> r.code == ServerError && unchanged(db)
    ensures r.Ok? ==>
      && r.value == NewSubmission(old(db.nextSubmissionId), userId,
           payload.title, payload.description, payload.codeContent, StoredLanguage(payload.language).value)
      && db.submissions == old(db.submissions) + [r.value]
      && db.nextSubmissionId == r.value.id + 1
      && LinksValid(db.links, r.value.id)
      && db.users == old(db.users) && db.tags == old(db.tags) && db.links == old(db.links)
      && db.reviews == old(db.reviews) && db.annotations == old(db.annotations)
  {
    var language := StoredLanguage(payload.language);
    if language.None? {
      // the commit raises: the value is too long for the column
      return Err(ServerError, InternalServerError);
    }
    var sub := NewSubmission(db.nextSubmissionId, userId,
      payload.title, payload.description, payload.codeContent, language.value);
    InsertSubmissionValid(db.submissions, db.nextSubmissionId, db.users, db.links, sub);
    db.submissions := db.submissions + [sub];
    db.nextSubmissionId := db.nextSubmissionId + 1;
    r := Ok(sub);
  }

  /** POST /api/submissions. A non-student gets 403. The row is committed
      first (a language longer than its column fails that commit with a
      500); a `null` tag list then fails the loop with a 500 that keeps the
      row; otherwise the tag loop runs, and a repeated name is a 500 that
      keeps the row, the created tags and the committed links. Every tag
      created was missing before and is named in the payload. */
  method CreateSubmission(db: Db, caller: User, payload: SubmissionCreate) returns (r: Result<CreatedSubmission>)
    requires db.Valid()
    requires UserIndex(db.users, caller.id).Some?
    modifies db
    ensures db.Valid()
    ensures db.users == old(db.users) && db.reviews == old(db.reviews) && db.annotations == old(db.annotations)
    ensures caller.role != Student ==> r == Err(Forbidden, OnlyStudents) && unchanged(db)
    ensures caller.role == Student && StoredLanguage(payload.language).None? ==>
      r.Err? && r.code == ServerError && unchanged(db)
    ensures caller.role == Student && StoredLanguage(payload.language).Some? ==>
      && db.submissions == old(db.submissions) + [NewSubmission(old(db.nextSubmissionId), caller.id,
           payload.title, payload.description, payload.codeContent, StoredLanguage(payload.language).value)]
      && (r.Ok? <==> payload.tags.Some? && Distinct(payload.tags.value))
      && old(db.links) <= db.links
      && (forall k :: |old(db.links)| <= k < |db.links| ==> db.links[k].submissionId == old(db.nextSubmissionId))
      && old(db.tags) <= db.tags
    ensures forall k :: |old(db.tags)| <= k < |db.tags| ==>
      payload.tags.Some? && db.tags[k].name in payload.tags.value && TagIndex(old(db.tags), db.tags[k].name).None?
    ensures r.Err? ==> r.code in {Forbidden, ServerError}
    ensures r.Ok? ==>
      && r.value.submission == db.submissions[|db.submissions| - 1]
      && r.value.submission.status == Pending
      && payload.tags.Some? && r.value.tags == payload.tags.value
      && db.links == old(db.links) + ExpectedLinks(r.value.submission.id, db.tags, payload.tags.value)
      && (forall n :: n in payload.tags.value ==> TagIndex(db.tags, n).Some?)
  {
    if caller.role != Student {
      return Err(Forbidden, OnlyStudents);
    }
    var inserted := InsertSubmission(db, caller.id, payload);
    if inserted.Err? {
      return Err(inserted.code, inserted.detail);
    }
    var sub := inserted.value;
    if payload.tags.None? {
      // iterating over `None` raises
      return Err(ServerError, InternalServerError);
    }
    var ok, tagNames := AttachTags(db, sub.id, payload.tags.value);
    if !ok {
      // the flush raises: the link's composite key is already taken
      return Err(ServerError, InternalServerError);
    }
    r := Ok(CreatedSubmission(sub, tagNames));
  }

  // ---------------------------------------------------------------- list

  datatype UserRef = UserRef(id: int, name: string)

  /** One listing row; `user` is present only in the mentor/admin view. */
  datatype SubmissionSummary = SubmissionSummary(
    id: int,
    user: Option<UserRef>,
    title: string,
    language: string,
    status: Status,
    reviewCount: nat)

  datatype SubmissionPage = SubmissionPage(submissions: seq<SubmissionSummary>, total: nat, page: nat, pages: nat)

  /** The listing's role filter: students see their own rows only. */
  predicate VisibleTo(s: Submission, caller: User) {
    caller.role == Student ==> s.userId == caller.id
  }

  /** The rows a caller's listing holds, in table order. */
  function Visible(ss: seq<Submission>, caller: User): (r: seq<Submission>)
    ensures forall s :: s in r <==> s in ss && VisibleTo(s, caller)
    ensures |r| <= |ss|
  {
    if |ss| == 0 then []
    else
      var init := Visible(ss[..|ss| - 1], caller);
      assert forall s :: s in ss <==> s in ss[..|ss| - 1] || s == ss[|ss| - 1];
      if VisibleTo(ss[|ss| - 1], caller) then init + [ss[|ss| - 1]] else init
  }

  /** Mentors and admins see every row, in table order. */
  lemma {:induction false} VisibleToStaff(ss: seq<Submission>, caller: User)
    requires caller.role != Student
    ensures Visible(ss, caller) == ss
  {
    if |ss| > 0 {
      VisibleToStaff(ss[..|ss| - 1], caller);
      assert ss[..|ss| - 1] + [ss[|ss| - 1]] == ss;
    }
  }

  /** The author reference of a row: the stored user's name. */
  function OwnerRef(us: seq<User>, userId: int): UserRef {
    match UserIndex(us, userId)
    case Some(k) => UserRef(userId, us[k].name)
    case None => UserRef(userId, "")
  }

  /** The dictionary the listing loop appends for one row: its columns,
      its author for mentors and admins only, and the number of review
      rows that belong to it. */
  function Summary(s: Submission, caller: User, us: seq<User>, rs: seq<Review>): (r: SubmissionSummary)
    ensures r.id == s.id && r.title == s.title && r.language == s.language && r.status == s.status
    ensures r.user.None? <==> caller.role == Student
    ensures r.user.Some? ==> r.user.value.id == s.userId
    ensures r.reviewCount == |ReviewRows(rs, s.id)|
  {
    ReviewCountIsRowCount(rs, s.id);
    SubmissionSummary(
      s.id,
      if caller.role == Student then None else Some(OwnerRef(us, s.userId)),
      s.title, s.language, s.status,
      ReviewCount(rs, s.id))
  }

  /** The listing the handler builds for `ss` in table order: one
      summary per visible row. */
  function Listing(ss: seq<Submission>, caller: User, us: seq<User>, rs: seq<Review>): (r: seq<SubmissionSummary>)
    ensures |r| <= |ss|
    ensures caller.role != Student ==> |r| == |ss|
    ensures forall k :: 0 <= k < |r| ==> (r[k].user.None? <==> caller.role == Student)
  {
    if |ss| == 0 then []
    else
      var last := ss[|ss| - 1];
      Listing(ss[..|ss| - 1], caller, us, rs) + (if VisibleTo(last, caller) then [Summary(last, caller, us, rs)] else [])
  }

  /** The listing holds exactly the summaries of the visible rows, in the
      same order; a student's entries carry no author, and an entry's
      review count is zero exactly when the row has no review. */
  lemma {:induction false} ListingIsVisibleSummaries(ss: seq<Submission>, caller: User, us: seq<User>, rs: seq<Review>)
    ensures |Listing(ss, caller, us, rs)| == |Visible(ss, caller)|
    ensures forall k :: 0 <= k < |Visible(ss, caller)| ==>
      Listing(ss, caller, us, rs)[k] == Summary(Visible(ss, caller)[k], caller, us, rs)
  {
    if |ss| > 0 {
      ListingIsVisibleSummaries(ss[..|ss| - 1], caller, us, rs);
    }
  }

  /** What each listing entry says about its row: a visible row's id,
      title, language and status, its author's id and name for mentors and
      admins, and the number of its reviews. */
  lemma ListingEntries(ss: seq<Submission>, caller: User, us: seq<User>, rs: seq<Review>, k: nat)
    requires k < |Visible(ss, caller)|
    ensures k < |Listing(ss, caller, us, rs)|
    ensures Visible(ss, caller)[k] in ss && VisibleTo(Visible(ss, caller)[k], caller)
    ensures var e, s := Listing(ss, caller, us, rs)[k], Visible(ss, caller)[k];
      && e.id == s.id && e.title == s.title && e.language == s.language && e.status == s.status
      && (e.user.None? <==> caller.role == Student)
      && (caller.role != Student ==> e.user == Some(OwnerRef(us, s.userId)))
      && e.reviewCount == |ReviewRows(rs, s.id)|
  {
    ListingIsVisibleSummaries(ss, caller, us, rs);
    var s := Visible(ss, caller)[k];
    assert s in Visible(ss, caller);
  }

  /** GET /api/submissions. No pagination: every visible row, each with
      its review count; `total` is the list's length and `page` and
      `pages` are always 1. */
  method GetSubmissions(db: Db, caller: User) returns (p: SubmissionPage)
    ensures p.submissions == Listing(db.submissions, caller, db.users, db.reviews)
    ensures p.total == |p.submissions| && p.page == 1 && p.pages == 1
    ensures forall k :: 0 <= k < |p.submissions| ==>
      p.submissions[k].reviewCount == |ReviewRows(db.reviews, p.submissions[k].id)|
  {
    var items: seq<SubmissionSummary> := [];
    var i := 0;
    while i < |db.submissions|
      invariant 0 <= i <= |db.submissions|
      invariant items == Listing(db.submissions[..i], caller, db.users, db.reviews)
    {
      assert db.submissions[..i + 1][..i] == db.submissions[..i];
      var s := db.submissions[i];
      if caller.role == Student {
        if s.userId == caller.id {
          items := items + [SubmissionSummary(s.id, None, s.title, s.language, s.status, ReviewCount(db.reviews, s.id))];
        }
      } else {
        items := items + [SubmissionSummary(s.id, Some(OwnerRef(db.users, s.userId)), s.title, s.language, s.status,
          ReviewCount(db.reviews, s.id))];
      }
      i := i + 1;
    }
    assert db.submissions[..i] == db.submissions;
    p := SubmissionPage(items, |items|, 1, 1);
    ListingIsVisibleSummaries(db.submissions, caller, db.users, db.reviews);
  }

  // ---------------------------------------------------------------- read one

  /** The reviewer a review row loads (its own author when the reviewer
      row is missing, which the stored data never has). */
  function ReviewerOf(us: seq<User>, r: Review, fallback: User): User {
    match UserIndex(us, r.reviewerId)
    case Some(u) => us[u]
    case None => fallback
  }

  /** What the submission's relationships load: author, tags and reviews
      with their reviewers and annotations. */
  function LoadView(db: Db, s: Submission): (v: SubmissionView)
    requires UserIndex(db.users, s.userId).Some?
    reads db
    ensures v.submission == s && v.author.id == s.userId
    ensures v.author == db.users[UserIndex(db.users, s.userId).value]
    ensures v.tags == TagsOf(db.links, db.tags, s.id)
    ensures |v.reviews| == |ReviewsOf(db.reviews, s.id)|
    ensures forall k :: 0 <= k < |v.reviews| ==>
      && v.reviews[k].review == ReviewsOf(db.reviews, s.id)[k]
      && v.reviews[k].annotations == AnnotationsOf(db.annotations, v.reviews[k].review.id)
      && v.reviews[k].reviewer == ReviewerOf(db.users, v.reviews[k].review, v.author)
  {
    var us := db.users;
    var author := us[UserIndex(us, s.userId).value];
    var rs := ReviewsOf(db.reviews, s.id);
    var as_ := db.annotations;
    SubmissionView(s, author, TagsOf(db.links, db.tags, s.id),
      seq(|rs|, k requires 0 <= k < |rs| =>
        ReviewView(rs[k], ReviewerOf(us, rs[k], author), AnnotationsOf(as_, rs[k].id))))
  }

  /** GET /api/submissions/{id} as written: 404 when absent, 403 for a
      student who is not the author; past the guards the serialiser as
      written raises on the first review, so a submission with a review is
      an uncaught 500, and one without is the intended dictionary. */
  method GetSubmissionAsWritten(db: Db, caller: User, id: int) returns (r: Result<SubmissionDict>)
    requires db.Valid()
    ensures CheckReadable(db.submissions, caller, id) == Denied(Missing) ==> r == Err(NotFound, ReadNotFound)
    ensures CheckReadable(db.submissions, caller, id) == Denied(NotOwner) ==> r == Err(Forbidden, ReadNotOwner)
    ensures CheckReadable(db.submissions, caller, id).Allowed? && ReviewsOf(db.reviews, id) != [] ==>
      r == Err(ServerError, InternalServerError)
    ensures r.Ok? <==> CheckReadable(db.submissions, caller, id).Allowed? && ReviewsOf(db.reviews, id) == []
    ensures r.Ok? ==>
      var s := db.submissions[CheckReadable(db.submissions, caller, id).index];
      r.value == SerializeSubmission(LoadView(db, s)) && r.value.reviews == []
  {
    var c := CheckReadable(db.submissions, caller, id);
    if c == Denied(Missing) {
      return Err(NotFound, ReadNotFound);
    }
    if c == Denied(NotOwner) {
      return Err(Forbidden, ReadNotOwner);
    }
    var s := db.submissions[c.index];
    r := SerializeSubmissionAsWritten(LoadView(db, s));
  }

  /** GET /api/submissions/{id} as intended, with the review entries read
      from the review's creation time: 404 when absent, 403 for a student
      who is not the author, otherwise the serialised submission: its
      columns, its author, its tag names and its reviews with their
      annotations. */
  method GetSubmission(db: Db, caller: User, id: int) returns (r: Result<SubmissionDict>)
    requires db.Valid()
    ensures CheckReadable(db.submissions, caller, id) == Denied(Missing) ==> r == Err(NotFound, ReadNotFound)
    ensures CheckReadable(db.submissions, caller, id) == Denied(NotOwner) ==> r == Err(Forbidden, ReadNotOwner)
    ensures r.Ok? <==> CheckReadable(db.submissions, caller, id).Allowed?
    ensures r.Ok? ==> r.value.id == id
    ensures r.Ok? && caller.role == Student ==> r.value.user.id == caller.id
    ensures r.Ok? ==>
      var s := db.submissions[CheckReadable(db.submissions, caller, id).index];
      && r.value.title == s.title && r.value.description == s.description
      && r.value.codeContent == s.codeContent && r.value.language == s.language && r.value.status == s.status
    ensures r.Ok? ==>
      var s := db.submissions[CheckReadable(db.submissions, caller, id).index];
      var u := UserIndex(db.users, s.userId);
      u.Some? && r.value.user == AuthorDict(db.users[u.value].id, db.users[u.value].name, db.users[u.value].email)
    ensures r.Ok? ==>
      var ts := TagsOf(db.links, db.tags, id);
      |r.value.tags| == |ts| && forall k :: 0 <= k < |ts| ==> r.value.tags[k] == ts[k].name
    ensures r.Ok? ==>
      var rs := ReviewsOf(db.reviews, id);
      && |r.value.reviews| == |rs|
      && forall k :: 0 <= k < |rs| ==>
        && r.value.reviews[k].id == rs[k].id
        && r.value.reviews[k].overallCommnets == rs[k].overallComment
        && r.value.reviews[k].rating == rs[k].rating
        && r.value.reviews[k].annotations == SerializeAnnotations(AnnotationsOf(db.annotations, rs[k].id))
    ensures r.Ok? ==>
      var s := db.submissions[CheckReadable(db.submissions, caller, id).index];
      var u := UserIndex(db.users, s.userId);
      var rs := ReviewsOf(db.reviews, id);
      u.Some? && |r.value.reviews| == |rs| &&
      forall k :: 0 <= k < |rs| ==>
        var w := ReviewerOf(db.users, rs[k], db.users[u.value]);
        r.value.reviews[k].reviewer == ReviewerDict(w.id, w.name)
  {
    var c := CheckReadable(db.submissions, caller, id);
    if c == Denied(Missing) {
      return Err(NotFound, ReadNotFound);
    }
    if c == Denied(NotOwner) {
      return Err(Forbidden, ReadNotOwner);
    }
    var s := db.submissions[c.index];
    r := Ok(SerializeSubmission(LoadView(db, s)));
  }

  // ---------------------------------------------------------------- update

  /** PUT /api/submissions/{id}: 404, then 403 for anyone but the author,
      then 400 unless pending; otherwise the fields sent replace the stored
      ones and nothing else changes. */
  method UpdateSubmission(db: Db, caller: User, id: int, payload: SubmissionUpdate) returns (r: Result<SubmissionResponse>)
    requires db.Valid()
    modifies db
    ensures db.Valid()
    ensures r.Err? ==> unchanged(db)
    ensures var c := CheckMutable(old(db.submissions), caller.id, id);
      && (c == Denied(Missing) ==> r == Err(NotFound, EditNotFound))
      && (c == Denied(NotOwner) ==> r == Err(Forbidden, UpdateNotOwner))
      && (c == Denied(NotPending) ==> r == Err(BadRequest, UpdateNotPending))
      && (c.Allowed? ==>
            && db.submissions == old(db.submissions)[c.index := ApplyUpdate(old(db.submissions)[c.index], payload)]
            && r == Ok(ToSubmissionResponse(db.submissions[c.index])))
    ensures db.users == old(db.users) && db.tags == old(db.tags) && db.links == old(db.links)
    ensures db.reviews == old(db.reviews) && db.annotations == old(db.annotations)
  {
    var c := CheckMutable(db.submissions, caller.id, id);
    match c {
      case Denied(Missing) => return Err(NotFound, EditNotFound);
      case Denied(NotOwner) => return Err(Forbidden, UpdateNotOwner);
      case Denied(NotPending) => return Err(BadRequest, UpdateNotPending);
      case Allowed(k) =>
        var updated := ApplyUpdate(db.submissions[k], payload);
        db.submissions := db.submissions[k := updated];
        r := Ok(ToSubmissionResponse(updated));
    }
  }

  // ---------------------------------------------------------------- delete

  /** Removing the row at `k` leaves exactly the rows with another id. */
  lemma RemoveAtMembers(ss: seq<Submission>, next: int, k: nat)
    requires SubmissionsValid(ss, next) && k < |ss|
    ensures forall s :: s in ss[..k] + ss[k + 1..] <==> s in ss && s.id != ss[k].id
  {
    var rest := ss[..k] + ss[k + 1..];
    forall s ensures s in rest <==> s in ss && s.id != ss[k].id {
      if s in ss && s.id != ss[k].id {
        var j :| 0 <= j < |ss| && ss[j] == s;
        if j < k { assert rest[j] == s; } else { assert rest[j - 1] == s; }
      }
      if s in rest {
        var j :| 0 <= j < |rest| && rest[j] == s;
        if j < k { assert ss[j] == s; } else { assert ss[j + 1] == s; }
      }
    }
  }

  /** Removing the row at `k` keeps the submission-table invariants. */
  lemma RemoveAtValid(ss: seq<Submission>, next: int, us: seq<User>, k: nat)
    requires SubmissionsValid(ss, next) && OwnersStored(ss, us) && k < |ss|
    ensures SubmissionsValid(ss[..k] + ss[k + 1..], next) && OwnersStored(ss[..k] + ss[k + 1..], us)
  {
    var rest := ss[..k] + ss[k + 1..];
    forall i | 0 <= i < |rest|
      ensures 1 <= rest[i].id < next && |rest[i].language| <= LanguageMaxLength
      ensures HasUser(us, rest[i].userId)
    {
      assert rest[i] == ss[if i < k then i else i + 1];
    }
    forall i, j | 0 <= i < j < |rest| ensures rest[i].id != rest[j].id {
      assert rest[i] == ss[if i < k then i else i + 1];
      assert rest[j] == ss[if j < k then j else j + 1];
    }
  }

  /** Removing a submission's links keeps the link invariant. */
  lemma LinksWithoutValid(ls: seq<SubmissionTag>, next: int, id: int)
    requires LinksValid(ls, next)
    ensures LinksValid(LinksWithout(ls, id), next)
  {
    var lw := LinksWithout(ls, id);
    forall i | 0 <= i < |lw| ensures lw[i].submissionId < next {
      assert lw[i] in lw;
    }
  }

  /** The row delete and its commit: the row at `k` goes, and so do the
      link rows naming it; no other table changes. */
  method RemoveSubmission(db: Db, k: nat)
    requires db.Valid() && k < |db.submissions|
    modifies db
    ensures db.Valid()
    ensures db.submissions == old(db.submissions)[..k] + old(db.submissions)[k + 1..]
    ensures forall s :: s in db.submissions <==> s in old(db.submissions) && s.id != old(db.submissions)[k].id
    ensures db.links == LinksWithout(old(db.links), old(db.submissions)[k].id)
    ensures db.users == old(db.users) && db.tags == old(db.tags)
    ensures db.reviews == old(db.reviews) && db.annotations == old(db.annotations)
    ensures db.nextSubmissionId == old(db.nextSubmissionId)
  {
    var id := db.submissions[k].id;
    RemoveAtMembers(db.submissions, db.nextSubmissionId, k);
    RemoveAtValid(db.submissions, db.nextSubmissionId, db.users, k);
    LinksWithoutValid(db.links, db.nextSubmissionId, id);
    db.submissions := db.submissions[..k] + db.submissions[k + 1..];
    db.links := LinksWithout(db.links, id);
  }

  /** DELETE /api/submissions/{id}: the same three checks as update; then
      the row and its tag links are deleted. A submission that already
      has reviews cannot go: the ORM would set their non-nullable
      `submission_id` to null, and the commit fails with a 500. */
  method DeleteSubmission(db: Db, caller: User, id: int) returns (r: Result<()>)
    requires db.Valid()
    modifies db
    ensures db.Valid()
    ensures r.Err? ==> unchanged(db)
    ensures CheckMutable(old(db.submissions), caller.id, id) == Denied(Missing) ==> r == Err(NotFound, EditNotFound)
    ensures CheckMutable(old(db.submissions), caller.id, id) == Denied(NotOwner) ==> r == Err(Forbidden, DeleteNotOwner)
    ensures CheckMutable(old(db.submissions), caller.id, id) == Denied(NotPending) ==> r == Err(BadRequest, DeleteNotPending)
    ensures CheckMutable(old(db.submissions), caller.id, id).Allowed? ==> (r.Ok? <==> ReviewsOf(old(db.reviews), id) == [])
    ensures r.Ok? ==> CheckMutable(old(db.submissions), caller.id, id).Allowed?
    ensures r.Ok? ==> var k := CheckMutable(old(db.submissions), caller.id, id).index;
      db.submissions == old(db.submissions)[..k] + old(db.submissions)[k + 1..]
    ensures r.Ok? ==> db.links == LinksWithout(old(db.links), id)
    ensures db.users == old(db.users) && db.tags == old(db.tags)
    ensures db.reviews == old(db.reviews) && db.annotations == old(db.annotations)
  {
    var c := CheckMutable(db.submissions, caller.id, id);
    if c == Denied(Missing) {
      return Err(NotFound, EditNotFound);
    }
    if c == Denied(NotOwner) {
      return Err(Forbidden, DeleteNotOwner);
    }
    if c == Denied(NotPending) {
      return Err(BadRequest, DeleteNotPending);
    }
    if ReviewsOf(db.reviews, id) != [] {
      // the flush raises: the reviews' non-null foreign key would be nulled
      return Err(ServerError, InternalServerError);
    }
    RemoveSubmission(db, c.index);
    r := Ok(());
  }
}
