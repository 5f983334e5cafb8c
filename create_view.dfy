/** The create-submission form of the web client: it checks the fields,
    parses the comma-separated tags, sends one multipart request (with the
    recorded walkthrough when there is one) and resets itself on success.
    The request itself is outside the model: its outcome is a parameter,
    `None` for success or the thrown error's message. */
module CreateView {
  import opened Common
  import opened JsText

  const TitleMax := 200
  const DescriptionMax := 2000
  const TitleRequired := "Title required (max 200 chars)"
  const DescriptionRequired := "Description required (max 2000 chars)"
  const CodeRequired := "Code content required"
  const Created := "Submission created successfully! \U{1F389}"
  const CreateFailed := "Failed to create submission"
  const DefaultLanguage := "python"
  const VideoFileName := "walkthrough.webm"

  /** The checks both submission forms run before any request, in order;
      on failure, the text of the alert. */
  function ValidateFields(title: string, description: string, codeContent: string): (r: Option<string>)
    ensures r.None? <==> 0 < |title| <= TitleMax && 0 < |description| <= DescriptionMax && codeContent != ""
    ensures !(0 < |title| <= TitleMax) ==> r == Some(TitleRequired)
    ensures 0 < |title| <= TitleMax && !(0 < |description| <= DescriptionMax) ==> r == Some(DescriptionRequired)
    ensures 0 < |title| <= TitleMax && 0 < |description| <= DescriptionMax && codeContent == "" ==> r == Some(CodeRequired)
  {
    if title == "" || |title| > TitleMax then Some(TitleRequired)
    else if description == "" || |description| > DescriptionMax then Some(DescriptionRequired)
    else if codeContent == "" then Some(CodeRequired)
    else None
  }

  /** `err.message || fallback`: the error's message, or the fallback when
      the message is empty. */
  function ErrorAlert(message: string, fallback: string): (r: string)
    ensures message != "" ==> r == message
    ensures message == "" ==> r == fallback
  {
    if message == "" then fallback else message
  }

  /** Each piece trimmed. */
  function TrimAll(ps: seq<string>): (r: seq<string>)
    ensures |r| == |ps| && forall k :: 0 <= k < |ps| ==> r[k] == Trim(ps[k])
  {
    seq(|ps|, k requires 0 <= k < |ps| => Trim(ps[k]))
  }

  /** The non-empty pieces, in order. */
  function KeepNonEmpty(ps: seq<string>): (r: seq<string>)
    ensures |r| <= |ps|
    ensures forall k :: 0 <= k < |r| ==> r[k] != "" && r[k] in ps
  {
    if ps == [] then []
    else (if ps[0] == "" then [] else [ps[0]]) + KeepNonEmpty(ps[1..])
  }

  /** A single piece is kept exactly when it is non-empty. */
  lemma KeepNonEmptySingle(p: string)
    ensures KeepNonEmpty([p]) == if p == "" then [] else [p]
  {
    assert [p][1..] == [];
  }

  /** Dropping empty pieces commutes with concatenation, so the kept
      pieces keep their order and their repetitions. */
  lemma {:induction false} KeepNonEmptyAppend(a: seq<string>, b: seq<string>)
    ensures KeepNonEmpty(a + b) == KeepNonEmpty(a) + KeepNonEmpty(b)
    decreases |a|
  {
    if a == [] {
      assert a + b == b;
    } else {
      assert (a + b)[0] == a[0];
      assert (a + b)[1..] == a[1..] + b;
      KeepNonEmptyAppend(a[1..], b);
    }
  }

  /** Keeping the non-empty pieces of pieces that are all non-empty keeps
      them all. */
  lemma {:induction false} KeepNonEmptyAll(ps: seq<string>)
    requires forall k :: 0 <= k < |ps| ==> ps[k] != ""
    ensures KeepNonEmpty(ps) == ps
  {
    if ps != [] {
      KeepNonEmptyAll(ps[1..]);
      assert [ps[0]] + ps[1..] == ps;
    }
  }

  /** A tag the parse can produce: non-empty, unpadded, without a comma. */
  predicate CleanTag(t: string) {
    t != "" && Unpadded(t) && ',' !in t
  }

  /** The tag list sent with a submission: the text split on commas, each
      piece trimmed, empty pieces dropped. */
  function ParseTags(raw: string): (tags: seq<string>)
    ensures forall k :: 0 <= k < |tags| ==> CleanTag(tags[k])
  {
    TrimmedPiecesClean(Split(raw, ','));
    KeepNonEmpty(TrimAll(Split(raw, ',')))
  }

  /** Trimming comma-free pieces leaves them unpadded and comma-free. */
  lemma TrimmedPiecesClean(pieces: seq<string>)
    requires forall k :: 0 <= k < |pieces| ==> ',' !in pieces[k]
    ensures forall k :: 0 <= k < |pieces| ==> Unpadded(TrimAll(pieces)[k]) && ',' !in TrimAll(pieces)[k]
  {
    var trimmed := TrimAll(pieces);
    forall k | 0 <= k < |pieces| ensures Unpadded(trimmed[k]) && ',' !in trimmed[k] {
      TrimUnpadded(pieces[k]);
      var pre, post := TrimRemovesOnlySpace(pieces[k]);
      assert ',' !in pieces[k];
      assert pieces[k] == pre + trimmed[k] + post;
    }
  }

  /** Trimming a concatenation trims each part. */
  lemma TrimAllAppend(a: seq<string>, b: seq<string>)
    ensures TrimAll(a + b) == TrimAll(a) + TrimAll(b)
  {
    forall k | 0 <= k < |a| + |b| ensures TrimAll(a + b)[k] == (TrimAll(a) + TrimAll(b))[k] {
      if k < |a| {
        assert (a + b)[k] == a[k];
      } else {
        assert (a + b)[k] == b[k - |a|];
      }
    }
  }

  /** The tags of two texts joined by a comma are the tags of the first
      followed by those of the second. */
  lemma ParseTagsAppend(a: string, b: string)
    ensures ParseTags(a + [','] + b) == ParseTags(a) + ParseTags(b)
  {
    SplitAppend(a, b, ',');
    TrimAllAppend(Split(a, ','), Split(b, ','));
    KeepNonEmptyAppend(TrimAll(Split(a, ',')), TrimAll(Split(b, ',')));
  }

  /** A text without a comma gives its trimmed self as the one tag, or no
      tag when it is blank. */
  lemma ParseTagsPiece(x: string)
    requires ',' !in x
    ensures ParseTags(x) == if Trim(x) == "" then [] else [Trim(x)]
  {
    assert IndexOf(x, ',') == |x|;
    assert TrimAll([x]) == [Trim(x)];
    KeepNonEmptySingle(Trim(x));
  }

  /** Empty text gives no tags. */
  lemma ParseTagsEmpty()
    ensures ParseTags("") == []
  {
    assert Split("", ',') == [""];
    assert Trim("") == "";
    assert TrimAll([""]) == [""];
  }

  /** Writing clean tags separated by commas and parsing the text gives
      back the same tags in the same order. */
  lemma ParseTagsJoin(tags: seq<string>)
    requires forall k :: 0 <= k < |tags| ==> CleanTag(tags[k])
    ensures ParseTags(Join(tags, ',')) == tags
  {
    if tags == [] {
      ParseTagsEmpty();
    } else {
      SplitJoin(tags, ',');
      TrimAllClean(tags);
      KeepNonEmptyAll(tags);
      assert ParseTags(Join(tags, ',')) == KeepNonEmpty(TrimAll(Split(Join(tags, ','), ',')));
    }
  }

  /** Trimming unpadded pieces changes none of them. */
  lemma TrimAllClean(ps: seq<string>)
    requires forall k :: 0 <= k < |ps| ==> Unpadded(ps[k])
    ensures TrimAll(ps) == ps
  {
    forall k | 0 <= k < |ps| ensures Trim(ps[k]) == ps[k] {
      TrimFixedIff(ps[k]);
    }
  }

  /** The recorded video as the request attaches it. */
  datatype VideoPart = VideoPart(blob: seq<bv8>, fileName: string)

  /** The multipart request's fields. */
  datatype CreatePayload = CreatePayload(
    title: string,
    description: string,
    codeContent: string,
    language: string,
    tags: seq<string>,
    video: Option<VideoPart>)

  /** The form's state. */
  class CreateSubmissionForm {
    var title: string
    var description: string
    var codeContent: string
    var language: string
    var tags: string
    var videoBlob: Option<seq<bv8>>
    var isSubmitting: bool

    /** A fresh form: empty fields, language "python", no video. */
    constructor ()
      ensures IsInitial() && !isSubmitting
    {
      title, description, codeContent, language, tags := "", "", "", DefaultLanguage, "";
      videoBlob := None;
      isSubmitting := false;
    }

    /** The fields hold their initial values. */
    predicate IsInitial()
      reads this
    {
      title == "" && description == "" && codeContent == "" && language == DefaultLanguage && tags == "" && videoBlob.None?
    }

    /** The request the form's current fields make: the text fields as
        typed, the parsed tags, and the video under its fixed file name
        exactly when one was recorded. */
    function Payload(): (p: CreatePayload)
      reads this
      ensures p.title == title && p.description == description && p.codeContent == codeContent && p.language == language
      ensures p.tags == ParseTags(tags)
      ensures p.video.Some? <==> videoBlob.Some?
      ensures p.video.Some? ==> p.video.value == VideoPart(videoBlob.value, VideoFileName)
    {
      CreatePayload(title, description, codeContent, language, ParseTags(tags),
        if videoBlob.Some? then Some(VideoPart(videoBlob.value, VideoFileName)) else None)
    }

    /** The submit handler. A failed check alerts and sends nothing.
        Otherwise the request is sent; on success the form is reset and
        the parent is told, on failure the fields stay as typed; either
        way the form is no longer submitting. */
    method HandleSubmit(outcome: Option<string>) returns (alert: string, sent: Option<CreatePayload>, created: bool)
      modifies this
      ensures var check := ValidateFields(old(title), old(description), old(codeContent));
        && (check.Some? ==> alert == check.value && sent.None? && !created && unchanged(this))
        && (check.None? ==> sent == Some(old(Payload())) && !isSubmitting)
        && (check.None? && outcome.None? ==> created && alert == Created && IsInitial())
        && (check.None? && outcome.Some? ==>
              && !created && alert == ErrorAlert(outcome.value, CreateFailed)
              && title == old(title) && description == old(description) && codeContent == old(codeContent)
              && language == old(language) && tags == old(tags) && videoBlob == old(videoBlob))
    {
      var check := ValidateFields(title, description, codeContent);
      if check.Some? {
        return check.value, None, false;
      }
      isSubmitting := true;
      sent := Some(Payload());
      if outcome.None? {
        title, description, codeContent, language, tags := "", "", "", DefaultLanguage, "";
        videoBlob := None;
        alert, created := Created, true;
      } else {
        alert, created := ErrorAlert(outcome.value, CreateFailed), false;
      }
      isSubmitting := false;
    }
  }
}
