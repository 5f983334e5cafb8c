# Code review system: a Dafny model of its core

The system is a code-review service:

- **Students** submit code (title, description, code, language, free-form tags and an optional walkthrough video).
- **Mentors** review a submission with an overall comment, a rating and line annotations. A completed review marks the submission reviewed.
- The backend is a set of HTTP handlers over a relational store.
- The web client has two forms at its core: one that creates submissions, and one that shows a submission, lets its author edit or delete it, and lets a mentor write a review.

This project models that core and proves properties of the model. It is made of:

- **The store.** `Database.Db` is a class with one sequence of rows per table and one id counter per table. Its object invariant `Valid` collects the declared constraints: unique primary keys and emails, unique tag names, the composite key of the submission-tag links, the 50-character language column, and a stored owner for every submission. `Models` holds the rows and `Schemas` the request and response shapes.
  - The store follows PostgreSQL's rule for `varchar(n)` columns: a longer value is refused, unless everything past the n-th character is a space, in which case the value is cut to n characters.
- **The handlers.** Register, login and "me" are in `AuthRoutes`. Create, list, read, update and delete submissions are in `SubmissionRoutes`. Create review and list reviews are in `ReviewRoutes`. Upload and delete the walkthrough video are in `VideoRoutes`.
  - Each handler is a method taking the store and the authenticated caller, and it `modifies` the store where the handler commits.
  - Each returns the handler's result or the HTTP error response (`Result`, with status code and detail text). An error the handler raises itself carries its own detail; an exception nothing catches becomes a 500 whose body is the fixed text "Internal Server Error".
  - The guard sequences are shared in `Access`, and the detail serialisers in `Helpers`.
- **Code as written.** The handlers follow the code as written, including its partial commits:
  - A submission is committed before its tag loop runs, so a repeated tag name fails with a 500 that keeps the row, the created tags and the links committed so far.
  - A review is committed before its annotations, so a missing line number, a `null` list or an empty list is a 500 that keeps the review and leaves the status pending.
  - `rating` and `line_number` are PostgreSQL `integer` columns (four bytes). A rating outside that range fails the review's commit: a 500 with nothing stored. A line number outside it fails the annotations' commit, like a missing one.
  - The review serialiser reads a misspelled attribute, so reading a submission that has a review fails. This is recorded under "Findings". `SubmissionRoutes.GetSubmissionAsWritten` models the read handler as written, and `SubmissionRoutes.GetSubmission` models it with the serialiser as intended.
  - Deleting a submission that has reviews fails, because the reviews' non-null foreign key would have to be nulled.
- **The client's text built-ins.** `JsText` models the JavaScript functions the forms use: `split` on a character, `trim` with the ECMAScript white-space set, and `parseInt` in radix 10.
- **The two forms.** `CreateView.CreateSubmissionForm` and `DetailView.SubmissionDetail` are classes whose fields are the components' state. Their handlers take the request's outcome as a parameter: `None` for success, or the thrown error's message. They return the alerts shown and the request sent.
  - The review form's annotation rows are normalised by a loop (`NormalizeAnnotations`). The loop is proved against `Normalized`, and `Normalized` is proved to keep order, text and line numbers.

External services are parameters: password hashing and verification, token creation, the media service's answer, the uploaded file's size and content type, and the reload after an update or a review.

## Model

| member | source | states |
|---|---|---|
| Schemas.ApplyUpdate | app/api/routes/submissions.py:160-168 | each field sent replaces the stored one and each field left out keeps it; id, owner, language, status and video URL never change |
| Schemas.ApplyUpdateLaws | app/schemas/submission.py:13-16 | an update with no field set changes nothing, and applying an update twice is applying it once |
| Schemas.ToSubmissionResponse | app/schemas/submission.py:18-24 | the update response shows the stored row's id, title and status |
| Schemas.ToAnnotationOut | app/schemas/review.py:22-25 | an output annotation shows the row's id, line number and text |
| Schemas.ParseRegistrationRole | app/schemas/auth.py:9 | an omitted role is student; a given role is accepted exactly when it is "student" or "mentor"; admin is never produced |
| Schemas.RegistrationRoleRoundTrip | app/schemas/auth.py:9 | a role's stored name is accepted back as that role exactly when the role is not admin |
| Schemas.ValidateUserCreate | app/schemas/auth.py:5-9 | registration input validates exactly when its role is accepted; email, name and password pass through; a refused role is a 422 |
| Schemas.ToUserOut | app/schemas/auth.py:11-17 | the public user view carries id, email, name, role and active flag |
| Database.UserIndex | app/api/routes/submissions.py:99-100 | the found row has the id; nothing is found exactly when no row has it |
| Database.UserByEmail | app/api/routes/auth.py:15 | the first row with the email; nothing is found exactly when no row has it |
| Database.SubmissionIndex | app/api/routes/submissions.py:143 | the found row has the id; nothing is found exactly when no row has it |
| Database.TagIndex | app/api/routes/submissions.py:38 | the first tag with the name; nothing is found exactly when no tag has it |
| Database.TagIndexAppend | app/api/routes/submissions.py:38-43 | creating a tag leaves every lookup that already succeeded unchanged |
| Database.SubmissionIndexUnique | app/models/submission.py:7 | under unique ids, the lookup of a stored row's id finds that row |
| Database.ReviewsOf | app/api/routes/reviews.py:73-75 | exactly the reviews whose submission id matches, no more rows than the table |
| Database.ReviewsOfSingle | app/api/routes/reviews.py:73-75 | a single review is kept exactly when its submission id matches |
| Database.ReviewsOfAppend | app/api/routes/reviews.py:73-75 | filtering a concatenation concatenates the filtered parts, so with the single-row case the result keeps table order and every matching row once |
| Database.ReviewCount | app/api/routes/submissions.py:71-74 | the outer-join count is zero exactly when the submission has no review |
| Database.ReviewCountIsRowCount | app/api/routes/submissions.py:71-74 | the count equals the number of positions of the review table that hold a review of the submission |
| Database.AnnotationsOf | app/models/review.py:17 | exactly the annotations of the review |
| Database.AnnotationsOfSingle | app/models/review.py:17 | a single annotation is kept exactly when it belongs to the review |
| Database.AnnotationsOfAppend | app/models/review.py:17 | filtering a concatenation concatenates the filtered parts, so the annotations keep table order and multiplicity |
| Database.LinksWithout | app/api/routes/submissions.py:189-190 | exactly the links naming another submission; distinct links stay distinct |
| Database.TagsOf | app/models/submission.py:23-27 | at most one tag per link; every tag returned is a stored tag that a link joins to the submission |
| Database.TagsOfComplete | app/models/submission.py:23-27 | under unique tag ids, every stored tag that a link joins to the submission is returned |
| Access.CheckOwner | app/api/routes/videos.py:36-49 | missing exactly when no row has the id; not owner exactly when the row has another author; allowed exactly when the caller wrote it, whatever the role |
| Access.CheckMutable | app/api/routes/submissions.py:143-158 | 404, 403 and 400 conditions each as an if-and-only-if, in that order; allowed only for the author's pending row |
| Access.CheckReadable | app/api/routes/submissions.py:123-131 | missing exactly when absent; refused exactly for a student who is not the author; mentors and admins read any row |
| Access.EditableIsReadable | app/api/routes/submissions.py:123-158 | whoever may update or delete a submission may also read it |
| Helpers.SerializeAnnotations | app/api/routes/helpers.py:1-10 | one entry per annotation, in order, with its id, line number and text |
| Helpers.SerializeAnnotationsAppend | app/api/routes/helpers.py:1-10 | serialising a concatenation concatenates the serialisations |
| Helpers.SerializeReviewsAsWritten | app/api/routes/helpers.py:12-26 | as written: any failure is a 500 |
| Helpers.SerializeReviewsFailsOnAnyReview | app/api/routes/helpers.py:22 | as written, the review list serialises exactly when it is empty, so it agrees with the intended serialiser only on an empty list |
| Helpers.SerializeReviews | app/api/routes/helpers.py:12-26 | as intended: one entry per review, in order, with its id, its reviewer's id and name, its comment under the `overall_commnets` key, its rating and its annotations serialised in order |
| Helpers.SerializeReviewsAppend | app/api/routes/helpers.py:12-26 | serialising a concatenation of reviews concatenates the serialisations |
| Helpers.SerializeSubmission | app/api/routes/helpers.py:28-45 | the row's id, title, description, code, language and status; the author's id, name and email; the tag names in order; the reviews serialised in order |
| Helpers.SerializeSubmissionAsWritten | app/api/routes/helpers.py:28-45 | as written, the dictionary is built exactly when the submission has no review, and is then the intended one; any review makes it an uncaught 500 |
| SubmissionRoutes.InsertSubmissionValid | app/api/routes/submissions.py:25-33 | inserting a row with the counter's id, a fitting language and a stored owner keeps the table invariants |
| SubmissionRoutes.TagIdOfInjective | app/models/tag.py:7-8 | under unique tag ids, two names that find the same tag are the same name |
| SubmissionRoutes.ExpectedLinks | app/api/routes/submissions.py:44-45 | one link per tag name, in order, each naming the submission and the tag found for that name |
| SubmissionRoutes.ExpectedLinkMember | app/models/submission_tag.py:7-8 | the link about to be added is already present exactly when its name occurred earlier in the payload |
| SubmissionRoutes.ExpectedLinksDistinct | app/models/submission_tag.py:7-8 | distinct tag names give distinct links, so the composite key holds |
| SubmissionRoutes.ExpectedLinksNewTag | app/api/routes/submissions.py:39-43 | creating a tag does not move the links of names that already had a tag |
| SubmissionRoutes.TagsValidAppend | app/api/routes/submissions.py:39-43 | a new tag with the counter's id and an unused name keeps tag ids and names unique and is found by its name |
| SubmissionRoutes.LinkTags | app/api/routes/submissions.py:36-47 | the loop succeeds exactly when the names are distinct; then it returns the names and adds one link per name in order; tags and links only grow, and new tags were missing before and named in the payload |
| SubmissionRoutes.TagStep | app/api/routes/submissions.py:37-46 | one turn reports a duplicate exactly when the name was seen, and otherwise extends the loop's facts to the name |
| SubmissionRoutes.AttachTags | app/api/routes/submissions.py:36-47 | the tag loop against the store keeps `Valid` and succeeds exactly for distinct names; it only adds links of the new submission; every tag it creates was missing before and is named in the payload; on success every name has a stored tag and one link per name is added in order |
| SubmissionRoutes.StoredLanguage | app/models/submission.py:17 | the `varchar(50)` column refuses a language exactly when a character past the 50th is not a space; what it stores is a prefix of at most 50 characters, the value itself when it fits, and only spaces are dropped |
| SubmissionRoutes.InsertSubmission | app/api/routes/submissions.py:25-34 | fails with a 500 and stores nothing exactly when the language column refuses the value; otherwise appends a pending row with the next id, the stored form of the language and no video |
| SubmissionRoutes.CreateSubmission | app/api/routes/submissions.py:21-58 | 403 for non-students with nothing stored; a refused language is a 500 with nothing stored; otherwise the row is stored; success exactly when the tag list is present and has no repeats, returning the tag names, giving every name a stored tag and adding one link per tag; any tag created was missing before and is named in the payload |
| SubmissionRoutes.Visible | app/api/routes/submissions.py:77-79 | a row is listed exactly when it is visible to the caller: students see their own rows only |
| SubmissionRoutes.VisibleToStaff | app/api/routes/submissions.py:78-81 | mentors and admins see every row, in table order |
| SubmissionRoutes.Summary | app/api/routes/submissions.py:85-107 | an entry has the row's id, title, language and status; its author reference is present exactly for mentors and admins and names the row's owner; its review count is the number of the row's reviews |
| SubmissionRoutes.Listing | app/api/routes/submissions.py:77-107 | no more entries than rows, one per row for mentors and admins; an entry carries an author exactly for mentors and admins |
| SubmissionRoutes.ListingIsVisibleSummaries | app/api/routes/submissions.py:83-107 | the listing has one summary per visible row, in order |
| SubmissionRoutes.ListingEntries | app/api/routes/submissions.py:85-107 | each entry has its visible row's id, title, language and status; the author reference is present exactly in the mentor/admin view and is the row's owner; the review count is the number of the row's reviews |
| SubmissionRoutes.GetSubmissions | app/api/routes/submissions.py:62-114 | the loop builds exactly the listing, each entry's review count being the number of its reviews; total is the list's length; page and pages are 1 |
| SubmissionRoutes.LoadView | app/models/submission.py:20-27 | the loaded view is of the row and its stored author, with the submission's tags and one entry per review of the submission, in order, each with its reviewer and its annotations |
| SubmissionRoutes.GetSubmissionAsWritten | app/api/routes/submissions.py:117-133 | as written: 404 when absent; 403 for a student who is not the author; a readable submission with at least one review is an uncaught 500; success exactly for a readable submission without reviews, answering the intended dictionary |
| SubmissionRoutes.GetSubmission | app/api/routes/submissions.py:117-133 | as intended, with the corrected review serialiser: 404 when absent; 403 for a student who is not the author; otherwise success, with the row's columns, the stored author's id, name and email, the names of the submission's tags in order, and its reviews in order with id, reviewer, comment, rating and annotations; a student only ever reads their own submission |
| SubmissionRoutes.UpdateSubmission | app/api/routes/submissions.py:136-174 | 404, 403 (admins included) and 400 when not pending, each changing nothing; otherwise only the target row changes, by the fields sent, and the response shows the updated row |
| SubmissionRoutes.RemoveAtMembers | app/api/routes/submissions.py:189 | removing the found row leaves exactly the rows with another id |
| SubmissionRoutes.RemoveAtValid | app/api/routes/submissions.py:189-190 | removing a row keeps the table invariants and the owners stored |
| SubmissionRoutes.RemoveSubmission | app/api/routes/submissions.py:189-190 | the row and its link rows go; no other table changes |
| SubmissionRoutes.DeleteSubmission | app/api/routes/submissions.py:176-191 | 404, 403 and 400 as for update, each changing nothing; an allowed delete succeeds exactly when the submission has no review, and then removes the row and its links |
| ReviewRoutes.SubmissionMissing | app/api/routes/reviews.py:24 | the 404 detail is "Submission with id ", the id's decimal text, then " not found" |
| ReviewRoutes.AnnotationRows | app/api/routes/reviews.py:36-41 | one row per input annotation, in order, with consecutive ids, the review's id, its line number and its text |
| ReviewRoutes.AddAnnotations | app/api/routes/reviews.py:36-44 | the loop and commit store the rows exactly when every line number is given and fits the integer column; otherwise the commit fails and nothing changes |
| ReviewRoutes.InsertReview | app/api/routes/reviews.py:26-34 | the commit succeeds exactly when the rating fits the integer column, and then appends the review with the next id, the payload's comment and rating, and the caller as reviewer; otherwise nothing changes |
| ReviewRoutes.MarkReviewed | app/api/routes/reviews.py:46-47 | only the submission's status changes, to reviewed |
| ReviewRoutes.RecordAnnotations | app/api/routes/reviews.py:36-45 | succeeds exactly for a present, non-empty list with every line number given and in the integer range; any failure is a 500 that stores no annotation |
| ReviewRoutes.CreateReview | app/api/routes/reviews.py:17-48 | 403 for non-mentors and 404 for a missing submission, with nothing stored; a rating outside the integer range is a 500 with nothing stored; otherwise the review is stored whatever follows; success exactly for a present, non-empty annotation list whose line numbers are all given and in range, which stores the annotations, marks the submission reviewed and returns them in order |
| ReviewRoutes.GetReviewsBySubmission | app/api/routes/reviews.py:50-80 | 404 when absent; 403 for a student who is not the author; otherwise the filtered reviews of that submission in table order, as many as the table holds for it |
| VideoRoutes.AssetName | app/api/routes/videos.py:79 | the asset name starts with "submission_" |
| VideoRoutes.AssetPath | app/api/routes/videos.py:143 | the deleted public id lies in the walkthrough folder and ends with the asset name |
| VideoRoutes.AssetPathInjective | app/api/routes/videos.py:143-146 | different (submission, user) pairs get different public ids, so a delete destroys only that pair's video |
| VideoRoutes.AssetNameInjective | app/api/routes/videos.py:79-80 | different (submission, user) pairs get different asset names, so an overwrite only replaces the same author's video of the same submission |
| VideoRoutes.UploadCheck | app/api/routes/videos.py:35-69 | passes exactly for the author, an allowed content type and at most 100 MB; 404, then 403, then 400 |
| VideoRoutes.UploadRequestFor | app/api/routes/videos.py:75-86 | the upload is a video in the walkthrough folder, under the asset name, overwriting |
| VideoRoutes.UploadVideoAsWritten | app/api/routes/videos.py:71-107 | as written: success exactly when the checks pass and the service answers, reporting the URL; a service error is a 500 |
| VideoRoutes.DeleteVideoAsWritten | app/api/routes/videos.py:121-139 | as written: never succeeds; 404 and 403 as guarded, and a 500 once the guards pass |
| VideoRoutes.UploadedVideoNeverDeletableAsWritten | app/api/routes/videos.py:91-135 | on a concrete store, the author's upload succeeds and the author's delete of it fails with a 500 |
| VideoRoutes.UploadVideo | app/api/routes/videos.py:23-107 | failed checks send and store nothing; a service failure is a 500 that stores nothing; success stores the secure URL on the row and changes nothing else |
| VideoRoutes.SetVideoUrl | app/api/routes/videos.py:91-92 | only the row's URL changes |
| VideoRoutes.DeleteVideo | app/api/routes/videos.py:110-160 | 404, 403, then 404 without a video, each changing nothing; otherwise the destroy request names the uploaded asset; success exactly when it succeeds, clearing only the row's URL |
| VideoRoutes.UploadedVideoIsDeletable | app/api/routes/videos.py:135-146 | after an upload has stored a URL, the author's delete passes every guard and destroys the very asset uploaded |
| AuthRoutes.RegisteredUser | app/api/routes/auth.py:21-24 | the stored user has the payload's fields, the hashed password, the given id and is active |
| AuthRoutes.RegisterUser | app/api/routes/auth.py:13-31 | a used email is a 400 that changes nothing; otherwise exactly one user is appended and returned without password |
| AuthRoutes.InsertUserValid | app/models/user.py:8-10 | appending a user with a fresh id and an unused email keeps ids and emails unique and owners stored |
| AuthRoutes.Login | app/api/routes/auth.py:33-43 | every failure is the same 401; success implies a stored user with the email whose hash verifies; the response's user is the first stored user with that email, and the bearer token is for that user's id |
| AuthRoutes.LoginSucceedsIff | app/api/routes/auth.py:35-36 | with unique emails, login succeeds exactly when some stored user has the email and the password verifies |
| AuthRoutes.LoginIgnoresActive | app/api/routes/auth.py:35-43 | a user's active flag changes neither the outcome nor the token |
| AuthRoutes.RegisterThenLogin | app/api/routes/auth.py:13-43 | a just-registered user logs in exactly when the verifier accepts the password against its own hash, with a token for the new id |
| AuthRoutes.MeHidesOnlyPassword | app/api/routes/auth.py:45-47 | two users with the same public view differ at most in their password |
| JsText.TrimUnpadded | frontend/src/components/submissions/CreateSubmissionView.jsx:38 | trimmed text has no white space at either end |
| JsText.TrimRemovesOnlySpace | frontend/src/components/submissions/CreateSubmissionView.jsx:38 | the text is the trimmed text with only white space before and after |
| JsText.TrimFixedIff | frontend/src/components/submissions/CreateSubmissionView.jsx:38 | trimming leaves text unchanged exactly when neither end is white space |
| JsText.TrimIdempotent | frontend/src/components/submissions/CreateSubmissionView.jsx:38 | trimming twice is trimming once |
| JsText.Split | frontend/src/components/submissions/CreateSubmissionView.jsx:37 | at least one piece, none containing the separator |
| JsText.JoinSplit | frontend/src/components/submissions/CreateSubmissionView.jsx:37 | joining the pieces with the separator gives back the text |
| JsText.SplitJoin | frontend/src/components/submissions/CreateSubmissionView.jsx:37 | splitting a join of separator-free pieces gives back the pieces |
| JsText.SplitAppend | frontend/src/components/submissions/CreateSubmissionView.jsx:37 | splitting two texts joined by the separator gives the pieces of the first followed by those of the second |
| JsText.ParseInt | frontend/src/components/submissions/SubmissionDetailView.jsx:105 | no number exactly when, after leading white space and an optional sign, no digit follows |
| JsText.ParseIntRoundTrip | frontend/src/components/submissions/SubmissionDetailView.jsx:105-106 | the decimal text of any integer is parsed back as that integer |
| CreateView.ValidateFields | frontend/src/components/submissions/CreateSubmissionView.jsx:19-30 | passes exactly for a 1..200-character title, a 1..2000-character description and non-empty code; otherwise the first failed check's alert |
| CreateView.ErrorAlert | frontend/src/components/submissions/CreateSubmissionView.jsx:72 | the error's message, or the fallback when that message is empty |
| CreateView.KeepNonEmpty | frontend/src/components/submissions/CreateSubmissionView.jsx:39 | only non-empty pieces from the input, no more than it had |
| CreateView.KeepNonEmptySingle | frontend/src/components/submissions/CreateSubmissionView.jsx:39 | a single piece is kept exactly when it is non-empty |
| CreateView.KeepNonEmptyAppend | frontend/src/components/submissions/CreateSubmissionView.jsx:39 | dropping empty pieces commutes with concatenation, so kept pieces keep their order and repetitions |
| CreateView.ParseTags | frontend/src/components/submissions/CreateSubmissionView.jsx:36-39 | every tag is non-empty, unpadded and comma-free |
| CreateView.TrimmedPiecesClean | frontend/src/components/submissions/CreateSubmissionView.jsx:37-38 | trimmed comma-free pieces are unpadded and comma-free |
| CreateView.TrimAllAppend | frontend/src/components/submissions/CreateSubmissionView.jsx:38 | trimming a concatenation of pieces trims each part |
| CreateView.ParseTagsAppend | frontend/src/components/submissions/CreateSubmissionView.jsx:36-39 | the tags of two texts joined by a comma are the first text's tags followed by the second's |
| CreateView.ParseTagsPiece | frontend/src/components/submissions/CreateSubmissionView.jsx:36-39 | a comma-free text gives its trimmed self as the only tag, or no tag when it is blank |
| CreateView.ParseTagsEmpty | frontend/src/components/submissions/CreateSubmissionView.jsx:36-39 | an empty tag field gives no tags |
| CreateView.ParseTagsJoin | frontend/src/components/submissions/CreateSubmissionView.jsx:36-39 | writing clean tags comma-separated and parsing them gives back the same tags in order |
| CreateView.CreateSubmissionForm.constructor | frontend/src/components/submissions/CreateSubmissionView.jsx:6-15 | a fresh form is empty, with language "python", no video and not submitting |
| CreateView.CreateSubmissionForm.Payload | frontend/src/components/submissions/CreateSubmissionView.jsx:41-52 | the request has the text fields as typed and the parsed tags, and has the video (named walkthrough.webm) exactly when one is recorded |
| CreateView.CreateSubmissionForm.HandleSubmit | frontend/src/components/submissions/CreateSubmissionView.jsx:17-76 | a failed check alerts, sends nothing and changes nothing; otherwise the request is sent; on success the form is reset, on failure its fields are kept; either way it stops submitting |
| DetailView.AppendBlank | frontend/src/components/submissions/SubmissionDetailView.jsx:131-136 | one blank row at the end, the others unchanged |
| DetailView.RemoveAt | frontend/src/components/submissions/SubmissionDetailView.jsx:138-143 | the row at the index is removed and the others keep their order; an index outside the list removes nothing |
| DetailView.SetField | frontend/src/components/submissions/SubmissionDetailView.jsx:149 | only the named field changes |
| DetailView.UpdateAt | frontend/src/components/submissions/SubmissionDetailView.jsx:145-152 | only the named field of the indexed row changes; an index outside the list changes nothing |
| DetailView.DraftStepCases | frontend/src/components/submissions/SubmissionDetailView.jsx:101-111 | a row is skipped exactly when its trimmed text is empty; a blank line field gives line 0; otherwise it aborts exactly when parseInt finds no number; a kept text is non-empty and unpadded |
| DetailView.CollectSucceedsIff | frontend/src/components/submissions/SubmissionDetailView.jsx:99-112 | collecting succeeds exactly when no step aborts |
| DetailView.CollectSingle | frontend/src/components/submissions/SubmissionDetailView.jsx:101-111 | a skipped row sends nothing, a kept row sends its annotation, and an aborting row aborts |
| DetailView.CollectAppend | frontend/src/components/submissions/SubmissionDetailView.jsx:99-112 | collecting a concatenation succeeds exactly when both halves do, and sends the first half's annotations followed by the second's |
| DetailView.CollectFromKept | frontend/src/components/submissions/SubmissionDetailView.jsx:111 | every collected annotation comes from a kept row |
| DetailView.CollectAllKept | frontend/src/components/submissions/SubmissionDetailView.jsx:99-112 | when every row keeps its annotation, the annotations are sent in order |
| DetailView.CollectPrefixNone | frontend/src/components/submissions/SubmissionDetailView.jsx:106-109 | once a prefix aborts, the whole list aborts |
| DetailView.NormalizedSucceedsIff | frontend/src/components/submissions/SubmissionDetailView.jsx:99-112 | the review's annotations are built exactly when no row aborts |
| DetailView.NormalizedAppend | frontend/src/components/submissions/SubmissionDetailView.jsx:99-112 | the rows of two lists send the first list's annotations followed by the second's, and abort when either list does |
| DetailView.NormalizedSingle | frontend/src/components/submissions/SubmissionDetailView.jsx:101-111 | one row sends what its step says: nothing, its annotation, or an abort |
| DetailView.NormalizedEntriesClean | frontend/src/components/submissions/SubmissionDetailView.jsx:101-111 | every annotation sent has non-empty, unpadded text |
| DetailView.AppendBlankNormalized | frontend/src/components/submissions/SubmissionDetailView.jsx:131-136 | a trailing blank row sends nothing |
| DetailView.LineOfRoundTrip | frontend/src/components/submissions/SubmissionDetailView.jsx:103-110 | the decimal text of a line number is read back as that number |
| DetailView.DraftStepRoundTrip | frontend/src/components/submissions/SubmissionDetailView.jsx:101-111 | the row showing a clean annotation sends that annotation |
| DetailView.NormalizeRoundTrip | frontend/src/components/submissions/SubmissionDetailView.jsx:99-112 | the rows showing clean annotations send back the same annotations, in order |
| DetailView.NormalizeAnnotations | frontend/src/components/submissions/SubmissionDetailView.jsx:99-112 | the loop returns exactly the normalisation of the rows |
| DetailView.EditControlsMatchServer | frontend/src/components/submissions/SubmissionDetailView.jsx:235 | outside editing, the edit and delete buttons show exactly when the server would allow the viewer to update or delete |
| DetailView.SubmissionDetail.constructor | frontend/src/components/submissions/SubmissionDetailView.jsx:6-17 | nothing loaded, not editing, empty edit form, empty comment, rating 5 and one blank annotation row |
| DetailView.SubmissionDetail.Load | frontend/src/components/submissions/SubmissionDetailView.jsx:23-38 | a loaded detail replaces the shown one and refills the edit form; a failure alerts and leaves, changing neither |
| DetailView.SubmissionDetail.HandleEdit | frontend/src/components/submissions/SubmissionDetailView.jsx:55-57 | editing starts and nothing else changes |
| DetailView.SubmissionDetail.HandleCancelEdit | frontend/src/components/submissions/SubmissionDetailView.jsx:59-66 | editing stops and the edit form shows the loaded submission again |
| DetailView.SubmissionDetail.HandleSaveEdit | frontend/src/components/submissions/SubmissionDetailView.jsx:68-91 | the create form's checks, then the update with the edit form; a failure only alerts; success reloads, stops editing and alerts; a reloaded detail is shown and refills the edit form, while a failed reload keeps the shown detail and the edit form |
| DetailView.SubmissionDetail.HandleDelete | frontend/src/components/submissions/SubmissionDetailView.jsx:40-53 | the request is made exactly when confirmed; success alerts and leaves the view, failure alerts only |
| DetailView.SubmissionDetail.HandleSubmitReview | frontend/src/components/submissions/SubmissionDetailView.jsx:93-129 | an empty comment or a non-numeric line number sends nothing; otherwise the review with the normalised annotations is sent; success resets the review form and reloads: a reloaded detail is shown and refills the edit form, while a failed reload keeps the shown detail and the edit form |
| DetailView.SubmissionDetail.AddAnnotation | frontend/src/components/submissions/SubmissionDetailView.jsx:131-136 | the rows become those rows and a blank one; nothing else changes |
| DetailView.SubmissionDetail.RemoveAnnotation | frontend/src/components/submissions/SubmissionDetailView.jsx:138-143 | the indexed row is removed; nothing else changes |
| DetailView.SubmissionDetail.UpdateAnnotation | frontend/src/components/submissions/SubmissionDetailView.jsx:145-152 | one field of the indexed row changes; nothing else changes |

## Left out

- Schemas.ValidateUserCreate: the 422 body is the framework's list of validation errors (location, message, input and error type). The model keeps only the error type of the refused role, `literal_error`.
- Timestamps are not modelled: `created_at`, `updated_at`, their server defaults, and the responses' timestamp fields.
- The notification table (app/models/notification.py) is not part of this model.
- Authentication is not modelled. The bearer-token dependency that yields the current user is outside the model; the caller is a parameter.
- Email validation and normalisation are left out. `EmailStr` (app/schemas/auth.py:6, 25) refuses malformed addresses and normalises the rest, for instance by lower-casing the domain. A model email stands for the address after that normalisation, so the raw comparisons in registration's duplicate check and in login's lookup compare normalised addresses.
- Password hashing, password verification and token creation are parameters.
- The media service is outside the model. Its answer is a parameter, and the handlers return the request they would send.
- The upload request's `eager` transformation options are not part of `UploadRequest`.
- The uploaded file's size and content type are parameters. Measuring the file by seeking is left out.
- Response validation by the web framework is not modelled: handlers return the value the handler function produces. The review listing returns a dictionary that does not have the shape of its declared response model, and how the framework treats that is outside the model. The same holds for the serialisation of returned ORM rows.
- Database sequences are simplified. A serial column's sequence also advances on inserts that are rolled back; the model's counters advance only on committed rows. So ids after a failed commit can differ from the real ones.
- Row order of queries without `ORDER BY` is taken to be table (insertion) order.
- Concurrent requests and transaction isolation are not modelled.
- Logging is left out: the server logger and the client's `console.log`/`console.error`.
- The HTTP transport between client and server is not modelled. The create form's request is modelled as a record whose tag list is the parsed sequence. Its multipart encoding and the `JSON.stringify` of the tags are left out, and so is how the server would read such a body.
- React rendering and asynchronous scheduling are not modelled. The parent callbacks (`onSubmissionCreated`, `onSubmissionUpdated`, `onViewChange`) are modelled only as returned flags (`created`, `leave`), and the video recorder component is not part of this model.
- DetailView.SubmissionDetail.HandleSaveEdit does not report the navigation that a failed reload triggers. Only the reload's alert is stated.
- DetailView.SubmissionDetail.HandleSubmitReview does not report that navigation either. Only the reload's alert is stated.
- JsText.ParseInt works on characters and unbounded integers. JavaScript strings are UTF-16 code units, `length` counts code units, and `parseInt` returns a double that loses precision beyond 2^53. None of that is modelled.
- CreateView.ValidateFields counts characters rather than UTF-16 code units. Lengths of text outside the Basic Multilingual Plane therefore differ from the browser's.

## Findings

| source | as written | input that shows it | evidently intended | confidence | as-written member | corrected member |
|---|---|---|---|---|---|---|
| app/api/routes/helpers.py:22 | each review entry reads `review.createrd_at`, an attribute the review row (app/models/review.py) does not have, so serialising any review raises and the detail read answers 500 for every reviewed submission | submission 1 with one review; its author reads submission 1 | the entry carries the review's creation time under `created_at` and the read succeeds | not executed | Helpers.SerializeReviewsFailsOnAnyReview | Helpers.SerializeReviews |
| app/api/routes/videos.py:91 | the upload assigns `walkthrough_video_url` on the loaded row, but the submission table (app/models/submission.py:5-27) declares no such column. The value is a plain object attribute that is never stored, and the delete handler's read of it (line 135) on a freshly loaded row raises, giving a 500 | submission 1 by user 7; user 7 uploads a webm video of 1024 bytes, the service answers with a URL, then user 7 deletes the video | the URL is stored on the submission row; the delete finds it, destroys the asset and clears it | not executed | VideoRoutes.UploadedVideoNeverDeletableAsWritten | VideoRoutes.UploadedVideoIsDeletable |
