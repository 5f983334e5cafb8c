/** The guard sequences the handlers run before touching a submission:
    existence first, then ownership or role, then (for edits) the pending
    state. Each handler turns a denial into its own status code and
    message. */
module Access {
  import opened Common
  import opened Models
  import opened Database

  datatype Denial = Missing | NotOwner | NotPending

  datatype Checked = Allowed(index: nat) | Denied(reason: Denial)

  /** Existence, then ownership, whatever the caller's role: the check of
      the two video handlers. */
  function CheckOwner(ss: seq<Submission>, callerId: int, id: int): (r: Checked)
    ensures r == Denied(Missing) <==> SubmissionIndex(ss, id).None?
    ensures r == Denied(NotOwner) <==> SubmissionIndex(ss, id).Some? && ss[SubmissionIndex(ss, id).value].userId != callerId
    ensures r.Allowed? <==> SubmissionIndex(ss, id).Some? && ss[SubmissionIndex(ss, id).value].userId == callerId
    ensures r.Allowed? ==> r.index == SubmissionIndex(ss, id).value
    ensures r != Denied(NotPending)
  {
    match SubmissionIndex(ss, id)
    case None => Denied(Missing)
    case Some(k) => if ss[k].userId != callerId then Denied(NotOwner) else Allowed(k)
  }

  /** Existence, then ownership (an admin is no exception), then the
      pending state: the check of update and delete. */
  function CheckMutable(ss: seq<Submission>, callerId: int, id: int): (r: Checked)
    ensures r == Denied(Missing) <==> SubmissionIndex(ss, id).None?
    ensures r == Denied(NotOwner) <==> SubmissionIndex(ss, id).Some? && ss[SubmissionIndex(ss, id).value].userId != callerId
    ensures r == Denied(NotPending) <==>
      SubmissionIndex(ss, id).Some? && ss[SubmissionIndex(ss, id).value].userId == callerId
      && ss[SubmissionIndex(ss, id).value].status != Pending
    ensures r.Allowed? ==> r.index < |ss| && ss[r.index].id == id && ss[r.index].userId == callerId && ss[r.index].status == Pending
  {
    match CheckOwner(ss, callerId, id)
    case Denied(d) => Denied(d)
    case Allowed(k) => if ss[k].status != Pending then Denied(NotPending) else Allowed(k)
  }

  /** Existence, then, for a student only, ownership: the check of the
      two read handlers. Mentors and admins may read any submission. */
  function CheckReadable(ss: seq<Submission>, caller: User, id: int): (r: Checked)
    ensures r == Denied(Missing) <==> SubmissionIndex(ss, id).None?
    ensures r == Denied(NotOwner) <==>
      SubmissionIndex(ss, id).Some? && caller.role == Student && ss[SubmissionIndex(ss, id).value].userId != caller.id
    ensures r.Allowed? ==> r.index < |ss| && ss[r.index].id == id
    ensures r.Allowed? && caller.role == Student ==> ss[r.index].userId == caller.id
    ensures r != Denied(NotPending)
  {
    match SubmissionIndex(ss, id)
    case None => Denied(Missing)
    case Some(k) => if caller.role == Student && ss[k].userId != caller.id then Denied(NotOwner) else Allowed(k)
  }

  /** A student can never read another user's submission, and anyone
      allowed to edit a submission may also read it. */
  lemma {:induction false} EditableIsReadable(ss: seq<Submission>, caller: User, id: int)
    requires CheckMutable(ss, caller.id, id).Allowed?
    ensures CheckReadable(ss, caller, id) == CheckMutable(ss, caller.id, id)
  {
  }
}
