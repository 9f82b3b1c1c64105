/**
 * The mentor workflow (MentorService): applying to become a mentor, proposing edits to a
 * mentor profile, listing those proposals page by page with a field-by-field diff, and a
 * mentor's decision on a mentee's application to one of its classes.
 */
module MentorServices {
  import opened Wrappers
  import opened Mentors
  import opened Paging
  import opened Multipart
  import Members
  import Applies

  /** `MentorErrorCode` */
  datatype MentorErrorCode =
    | MentorNotFound
    | MentorAlreadyExists
    | InvalidMentorApplication
    | InvalidPageParams
    | InvalidStatusParam
    | JobNotFound
    | InternalServerError

  /** A `MentorException` with its code, or Spring's `AccessDeniedException`. */
  datatype MentorError = MentorException(code: MentorErrorCode) | AccessDenied

  /** `MentorApplyProposalStatus` and `MentorEditProposalStatus`, both taken to be PENDING, APPROVED, REJECTED. */
  datatype ProposalStatus = ProposalPending | ProposalApproved | ProposalRejected

  /** `name()` of a status. */
  function StatusName(s: ProposalStatus): string {
    match s
    case ProposalPending => "PENDING"
    case ProposalApproved => "APPROVED"
    case ProposalRejected => "REJECTED"
  }

  /** `MentorEditProposalStatus.valueOf`: an exact, case-sensitive match of a constant's name. */
  function ParseStatus(name: string): (r: Option<ProposalStatus>)
    ensures r.Some? ==> StatusName(r.value) == name
    ensures r.None? ==> forall s :: StatusName(s) != name
  {
    if name == "PENDING" then Some(ProposalPending)
    else if name == "APPROVED" then Some(ProposalApproved)
    else if name == "REJECTED" then Some(ProposalRejected)
    else None
  }

  /** Every status name parses back to its status. */
  lemma ParseStatusName(s: ProposalStatus)
    ensures ParseStatus(StatusName(s)) == Some(s)
  {
  }

  /** `MentorApplyProposalRequestDto` */
  datatype ApplyProposalRequest = ApplyProposalRequest(
    memberId: int, jobId: int, name: string, career: int, phone: string, email: string,
    currentCompany: Option<string>, introduction: Option<string>)

  /** A stored `MentorApplyProposal`. */
  datatype ApplyProposal = ApplyProposal(
    id: nat, memberId: int, jobId: int, name: string, career: int, phone: string, email: string,
    currentCompany: Option<string>, introduction: Option<string>, status: ProposalStatus)

  /** The fields of `MentorEditProposalRequest` the service reads. */
  datatype EditRequest = EditRequest(jobId: int, career: int, currentCompany: Option<string>, introduction: Option<string>)

  /** A stored `MentorEditProposal`; `createdAt` is an opaque timestamp. */
  datatype EditProposal = EditProposal(id: nat, memberId: int, proposed: Profile, status: ProposalStatus, createdAt: int)

  /** `ModificationRequestParams` */
  datatype ModificationRequestParams = ModificationRequestParams(status: Option<string>, page: int, size: int)

  /** A value shown in a field diff. */
  datatype FieldValue = Number(n: int) | Text(s: string) | Null

  /** `FieldChange(before, after)` */
  datatype FieldChange = FieldChange(before: FieldValue, after: FieldValue)

  /** `ChangeRequestData` */
  datatype ChangeRequestData = ChangeRequestData(
    proposalId: nat, status: string, createdAt: int, modifiedFields: map<string, FieldChange>)

  datatype Pagination = Pagination(page: int, size: int, totalElements: nat)

  /** `ChangeListResponse` */
  datatype ChangeListResponse = ChangeListResponse(changeRequests: seq<ChangeRequestData>, pagination: Pagination)

  // ------------------------------------------------------------------
  // Guards
  // ------------------------------------------------------------------

  /** validateFileOrMarkdown: at least one file or a non-empty markdown text is required. */
  function ValidateFileOrMarkdown(files: Option<seq<MultipartFile>>, markdown: Option<string>): (r: Option<MentorErrorCode>)
    ensures r.Some? <==> (files.None? || |files.value| == 0) && (markdown.None? || |markdown.value| == 0)
    ensures r.Some? ==> r.value == InvalidMentorApplication
  {
    if (files.None? || |files.value| == 0) && (markdown.None? || |markdown.value| == 0) then
      Some(InvalidMentorApplication)
    else None
  }

  /** `existsByMemberId`: the member already has an apply proposal of any status. */
  predicate HasApplyProposal(proposals: seq<ApplyProposal>, memberId: int) {
    exists i :: 0 <= i < |proposals| && proposals[i].memberId == memberId
  }

  /** The checks of applyMentor, in the source's order; `None` lets the proposal be saved. */
  function ApplyMentorGuard(files: Option<seq<MultipartFile>>, members: map<int, Members.Member>, jobs: set<int>,
                            proposals: seq<ApplyProposal>, req: ApplyProposalRequest): (g: Option<MentorErrorCode>)
    ensures ValidateFileOrMarkdown(files, req.introduction).Some? ==> g == Some(InvalidMentorApplication)
    ensures ValidateFileOrMarkdown(files, req.introduction).None? && req.memberId !in members ==> g == Some(MentorNotFound)
    ensures (ValidateFileOrMarkdown(files, req.introduction).None? && req.memberId in members &&
             members[req.memberId].userRole == Members.Mentor) ==> g == Some(MentorAlreadyExists)
    ensures (ValidateFileOrMarkdown(files, req.introduction).None? && req.memberId in members &&
             members[req.memberId].userRole != Members.Mentor && HasApplyProposal(proposals, req.memberId)) ==>
            g == Some(InvalidMentorApplication)
    ensures g.None? <==>
      ValidateFileOrMarkdown(files, req.introduction).None? && req.memberId in members &&
      members[req.memberId].userRole != Members.Mentor && !HasApplyProposal(proposals, req.memberId) &&
      req.jobId in jobs
    ensures g == Some(JobNotFound) <==>
      ValidateFileOrMarkdown(files, req.introduction).None? && req.memberId in members &&
      members[req.memberId].userRole != Members.Mentor && !HasApplyProposal(proposals, req.memberId) &&
      req.jobId !in jobs
    ensures g.Some? && !(g.value in {InvalidMentorApplication, MentorNotFound, MentorAlreadyExists}) ==>
      g == Some(JobNotFound)
  {
    if ValidateFileOrMarkdown(files, req.introduction).Some? then Some(InvalidMentorApplication)
    else if req.memberId !in members then Some(MentorNotFound)
    else if members[req.memberId].userRole == Members.Mentor then Some(MentorAlreadyExists)
    else if HasApplyProposal(proposals, req.memberId) then Some(InvalidMentorApplication)
    else if req.jobId !in jobs then Some(JobNotFound)
    else None
  }

  /** The proposal applyMentor saves: PENDING, with the request's fields copied. */
  function NewApplyProposal(id: nat, req: ApplyProposalRequest): ApplyProposal {
    ApplyProposal(id, req.memberId, req.jobId, req.name, req.career, req.phone, req.email,
                  req.currentCompany, req.introduction, ProposalPending)
  }

  /** No member has two apply proposals. */
  ghost predicate OneApplyProposalPerMember(proposals: seq<ApplyProposal>) {
    forall i, j :: 0 <= i < j < |proposals| ==> proposals[i].memberId != proposals[j].memberId
  }

  /** Once a member's proposal is saved, every later application by that member is refused. */
  lemma SecondApplicationRefused(files: Option<seq<MultipartFile>>, files': Option<seq<MultipartFile>>,
                                 members: map<int, Members.Member>, jobs: set<int>, proposals: seq<ApplyProposal>,
                                 req: ApplyProposalRequest, req': ApplyProposalRequest, id: nat)
    requires ApplyMentorGuard(files, members, jobs, proposals, req).None?
    requires req'.memberId == req.memberId
    ensures ApplyMentorGuard(files', members, jobs, proposals + [NewApplyProposal(id, req)], req').Some?
  {
    var after := proposals + [NewApplyProposal(id, req)];
    assert after[|proposals|].memberId == req'.memberId;
  }

  /** The checks of updateMentor, in the source's order; `mentorStatus` is `None` when there is no such mentor. */
  function UpdateMentorGuard(files: Option<seq<MultipartFile>>, req: EditRequest, mentorStatus: Option<ModificationStatus>,
                             hasChanges: bool, jobs: set<int>): (g: Option<MentorErrorCode>)
    ensures ValidateFileOrMarkdown(files, req.introduction).Some? ==> g == Some(InvalidMentorApplication)
    ensures mentorStatus == Some(RequestPending) ==> g == Some(InvalidMentorApplication)
    ensures (ValidateFileOrMarkdown(files, req.introduction).None? && mentorStatus.Some? &&
             mentorStatus.value != RequestPending && !hasChanges) ==> g == Some(InvalidMentorApplication)
    ensures !hasChanges ==> g.Some?
    ensures mentorStatus.None? ==> g.Some?
    ensures g.None? <==>
      ValidateFileOrMarkdown(files, req.introduction).None? && mentorStatus.Some? &&
      mentorStatus.value != RequestPending && hasChanges && req.jobId in jobs
    ensures g == Some(MentorNotFound) <==> ValidateFileOrMarkdown(files, req.introduction).None? && mentorStatus.None?
    ensures g == Some(JobNotFound) <==>
      ValidateFileOrMarkdown(files, req.introduction).None? && mentorStatus.Some? &&
      mentorStatus.value != RequestPending && hasChanges && req.jobId !in jobs
  {
    if ValidateFileOrMarkdown(files, req.introduction).Some? then Some(InvalidMentorApplication)
    else if mentorStatus.None? then Some(MentorNotFound)
    else if mentorStatus.value == RequestPending then Some(InvalidMentorApplication)
    else if !hasChanges then Some(InvalidMentorApplication)
    else if req.jobId !in jobs then Some(JobNotFound)
    else None
  }

  /** A pending edit proposal is always matched by its mentor's PENDING modification status. */
  ghost predicate PendingEditsTracked(edits: seq<EditProposal>, statuses: map<int, ModificationStatus>) {
    forall i :: 0 <= i < |edits| && edits[i].status == ProposalPending ==>
      edits[i].memberId in statuses && statuses[edits[i].memberId] == RequestPending
  }

  /** No mentor has two pending edit proposals at once. */
  ghost predicate AtMostOnePendingEdit(edits: seq<EditProposal>) {
    forall i, j :: 0 <= i < j < |edits| && edits[i].status == ProposalPending && edits[j].status == ProposalPending ==>
      edits[i].memberId != edits[j].memberId
  }

  /**
   * Saving a pending proposal for a mentor whose status was not PENDING, then marking it PENDING,
   * keeps both invariants: the guard on the mentor's status is what rules out a second pending proposal.
   */
  lemma {:induction false} PendingEditStaysUnique(edits: seq<EditProposal>, statuses: map<int, ModificationStatus>,
                                                  p: EditProposal)
    requires PendingEditsTracked(edits, statuses) && AtMostOnePendingEdit(edits)
    requires p.memberId in statuses && statuses[p.memberId] != RequestPending && p.status == ProposalPending
    ensures PendingEditsTracked(edits + [p], statuses[p.memberId := RequestPending])
    ensures AtMostOnePendingEdit(edits + [p])
  {
    var after := edits + [p];
    forall i, j | 0 <= i < j < |after| && after[i].status == ProposalPending && after[j].status == ProposalPending
      ensures after[i].memberId != after[j].memberId
    {
      if j == |edits| {
        assert after[i] == edits[i];
        assert statuses[edits[i].memberId] == RequestPending;
      } else {
        assert after[i] == edits[i] && after[j] == edits[j];
      }
    }
    var statuses' := statuses[p.memberId := RequestPending];
    forall i | 0 <= i < |after| && after[i].status == ProposalPending
      ensures after[i].memberId in statuses' && statuses'[after[i].memberId] == RequestPending
    {
      if i < |edits| {
        assert after[i] == edits[i];
      }
    }
  }

  // ------------------------------------------------------------------
  // The field diff of convertToChangeRequestData
  // ------------------------------------------------------------------

  function TextValue(o: Option<string>): FieldValue {
    if o.Some? then Text(o.value) else Null
  }

  function TextOption(v: FieldValue): Option<string> {
    if v.Text? then Some(v.s) else None
  }

  const DiffKeys: set<string> := {"career", "currentCompany", "jobId", "introduction"}

  /**
   * The modified-fields map: a key for each field whose proposed value differs from the mentor's,
   * holding (current, proposed). A proposal with a null company or introduction makes `equals`
   * throw, which is `None` here.
   */
  function ChangedFields(current: Profile, proposed: Profile): (r: Option<map<string, FieldChange>>)
    ensures r.None? <==> proposed.currentCompany.None? || proposed.introduction.None?
    ensures r.Some? ==> r.value.Keys <= DiffKeys
    ensures r.Some? ==> ("career" in r.value <==> proposed.career != current.career)
    ensures r.Some? ==> ("currentCompany" in r.value <==> proposed.currentCompany != current.currentCompany)
    ensures r.Some? ==> ("jobId" in r.value <==> proposed.jobId != current.jobId)
    ensures r.Some? ==> ("introduction" in r.value <==> proposed.introduction != current.introduction)
    ensures r.Some? && "career" in r.value ==>
      r.value["career"] == FieldChange(Number(current.career), Number(proposed.career))
    ensures r.Some? && "currentCompany" in r.value ==>
      r.value["currentCompany"] == FieldChange(TextValue(current.currentCompany), TextValue(proposed.currentCompany))
    ensures r.Some? && "jobId" in r.value ==>
      r.value["jobId"] == FieldChange(Number(current.jobId), Number(proposed.jobId))
    ensures r.Some? && "introduction" in r.value ==>
      r.value["introduction"] == FieldChange(TextValue(current.introduction), TextValue(proposed.introduction))
  {
    if proposed.currentCompany.None? || proposed.introduction.None? then None
    else
      Some((if proposed.career != current.career
            then map["career" := FieldChange(Number(current.career), Number(proposed.career))] else map[]) +
           (if proposed.currentCompany != current.currentCompany
            then map["currentCompany" := FieldChange(TextValue(current.currentCompany), TextValue(proposed.currentCompany))]
            else map[]) +
           (if proposed.jobId != current.jobId
            then map["jobId" := FieldChange(Number(current.jobId), Number(proposed.jobId))] else map[]) +
           (if proposed.introduction != current.introduction
            then map["introduction" := FieldChange(TextValue(current.introduction), TextValue(proposed.introduction))]
            else map[]))
  }

  /** Replays a diff onto a profile: every listed field takes its `after` value. */
  function ApplyChanges(current: Profile, changes: map<string, FieldChange>): Profile {
    Profile(
      if "career" in changes && changes["career"].after.Number? then changes["career"].after.n else current.career,
      if "currentCompany" in changes then TextOption(changes["currentCompany"].after) else current.currentCompany,
      if "jobId" in changes && changes["jobId"].after.Number? then changes["jobId"].after.n else current.jobId,
      if "introduction" in changes then TextOption(changes["introduction"].after) else current.introduction)
  }

  /** The diff is complete: replaying it on the mentor's profile yields exactly the proposal. */
  lemma DiffReplaysToProposal(current: Profile, proposed: Profile)
    requires ChangedFields(current, proposed).Some?
    ensures ApplyChanges(current, ChangedFields(current, proposed).value) == proposed
  {
  }

  /** The diff is empty exactly when the proposal repeats the mentor's profile. */
  lemma EmptyDiffIffUnchanged(current: Profile, proposed: Profile)
    requires ChangedFields(current, proposed).Some?
    ensures ChangedFields(current, proposed).value == map[] <==> current == proposed
  {
    var d := ChangedFields(current, proposed).value;
    if d == map[] {
      assert "career" !in d && "currentCompany" !in d && "jobId" !in d && "introduction" !in d;
    }
  }

  /** convertToChangeRequestData; the mentor lookup failing or a null field throwing both surface as INTERNAL_SERVER_ERROR. */
  function Convert(profiles: map<int, Profile>, p: EditProposal): (r: Result<ChangeRequestData, MentorErrorCode>)
    ensures r.Err? ==> r.error == InternalServerError
    ensures r.Ok? <==> p.memberId in profiles && ChangedFields(profiles[p.memberId], p.proposed).Some?
    ensures r.Ok? ==> r.value.proposalId == p.id && r.value.status == StatusName(p.status) &&
                      r.value.createdAt == p.createdAt &&
                      r.value.modifiedFields == ChangedFields(profiles[p.memberId], p.proposed).value
  {
    if p.memberId !in profiles then Err(InternalServerError)
    else
      match ChangedFields(profiles[p.memberId], p.proposed)
      case None => Err(InternalServerError)
      case Some(fields) => Ok(ChangeRequestData(p.id, StatusName(p.status), p.createdAt, fields))
  }

  /** The page's proposals converted in order; the first failure aborts the whole listing. */
  function ConvertAll(profiles: map<int, Profile>, content: seq<EditProposal>): (r: Result<seq<ChangeRequestData>, MentorErrorCode>)
    ensures r.Err? ==> r.error == InternalServerError
    ensures r.Ok? <==> forall i :: 0 <= i < |content| ==> Convert(profiles, content[i]).Ok?
    ensures r.Ok? ==> |r.value| == |content|
    ensures r.Ok? ==> forall i :: 0 <= i < |content| ==> r.value[i] == Convert(profiles, content[i]).value
  {
    if content == [] then Ok([])
    else
      var front := content[..|content| - 1];
      match ConvertAll(profiles, front)
      case Err(e) => Err(e)
      case Ok(done) =>
        match Convert(profiles, content[|content| - 1])
        case Err(e) => Err(e)
        case Ok(last) => Ok(done + [last])
  }

  /** The member's edit proposals, optionally of one status, newest saved first. */
  function EditsNewestFirst(edits: seq<EditProposal>, memberId: int, status: Option<ProposalStatus>): (r: seq<EditProposal>)
    ensures |r| <= |edits|
    ensures forall p :: p in r <==> p in edits && p.memberId == memberId && (status.None? || p.status == status.value)
  {
    if edits == [] then []
    else
      var last := edits[|edits| - 1];
      (if last.memberId == memberId && (status.None? || last.status == status.value) then [last] else []) +
      EditsNewestFirst(edits[..|edits| - 1], memberId, status)
  }

  /** The status filter of the request: none when no status is given. */
  function StatusFilter(params: ModificationRequestParams): Option<ProposalStatus> {
    if params.status.Some? then ParseStatus(params.status.value) else None
  }

  /** One page of a listing, converted, with the request's page and size echoed. */
  function PageResponse(profiles: map<int, Profile>, listing: seq<EditProposal>, page: int, size: int)
    : (r: Result<ChangeListResponse, MentorErrorCode>)
    requires page >= 1 && size >= 1
    ensures r.Err? ==> r.error == InternalServerError
    ensures r.Ok? ==> r.value.pagination == Pagination(page, size, |listing|)
    ensures r.Ok? ==> |r.value.changeRequests| == |PageSlice(listing, page - 1, size)| <= size
    ensures r.Ok? ==> forall i :: 0 <= i < |r.value.changeRequests| ==>
      r.value.changeRequests[i].proposalId == PageSlice(listing, page - 1, size)[i].id &&
      r.value.changeRequests[i].status == StatusName(PageSlice(listing, page - 1, size)[i].status)
  {
    var content := PageSlice(listing, page - 1, size);
    match ConvertAll(profiles, content)
    case Err(e) => Err(e)
    case Ok(data) => Ok(ChangeListResponse(data, Pagination(page, size, |listing|)))
  }

  /** getModificationRequests on values: `profiles` holds each existing mentor's current fields. */
  function ModificationRequests(profiles: map<int, Profile>, edits: seq<EditProposal>, memberId: int,
                                params: ModificationRequestParams): (r: Result<ChangeListResponse, MentorErrorCode>)
    ensures memberId !in profiles ==> r == Err(MentorNotFound)
    ensures (memberId in profiles && (params.page < 1 || params.size < 1)) ==> r == Err(InvalidPageParams)
    ensures (memberId in profiles && params.page >= 1 && params.size >= 1 && params.status.Some? &&
             ParseStatus(params.status.value).None?) ==> r == Err(InvalidStatusParam)
    ensures r.Ok? ==> params.page >= 1 && params.size >= 1 && (params.status.Some? ==> StatusFilter(params).Some?)
    ensures r.Ok? ==>
      r == PageResponse(profiles, EditsNewestFirst(edits, memberId, StatusFilter(params)), params.page, params.size)
  {
    if memberId !in profiles then Err(MentorNotFound)
    else if params.page < 1 || params.size < 1 then Err(InvalidPageParams)
    else if params.status.Some? && ParseStatus(params.status.value).None? then Err(InvalidStatusParam)
    else PageResponse(profiles, EditsNewestFirst(edits, memberId, StatusFilter(params)), params.page, params.size)
  }

  /** With a status filter, every listed request carries exactly the requested status name. */
  lemma ListedStatusesMatchFilter(profiles: map<int, Profile>, edits: seq<EditProposal>, memberId: int,
                                  params: ModificationRequestParams)
    requires ModificationRequests(profiles, edits, memberId, params).Ok? && params.status.Some?
    ensures forall c :: c in ModificationRequests(profiles, edits, memberId, params).value.changeRequests ==>
      c.status == params.status.value
  {
    var filter := StatusFilter(params);
    assert filter.Some? && StatusName(filter.value) == params.status.value;
    var listing := EditsNewestFirst(edits, memberId, filter);
    var content := PageSlice(listing, params.page - 1, params.size);
    var requests := PageResponse(profiles, listing, params.page, params.size).value.changeRequests;
    forall i | 0 <= i < |requests|
      ensures requests[i].status == params.status.value
    {
      assert content[i] in listing;
    }
  }

  // ------------------------------------------------------------------
  // A mentor's decision on an application
  // ------------------------------------------------------------------

  /** APPROVED and REJECTED are final. */
  predicate IsFinal(s: Applies.ApplyStatus) {
    s == Applies.Approved || s == Applies.Rejected
  }

  /** The checks of updateApplyStatus; `mentorClasses` is `None` when there is no such mentor. */
  function ApplyStatusGuard(mentorClasses: Option<seq<int>>, applies: seq<Applies.Apply>, applyId: int)
    : (g: Option<MentorError>)
    ensures mentorClasses.None? ==> g == Some(MentorException(MentorNotFound))
    ensures mentorClasses.Some? && Applies.FindApply(applies, applyId).None? ==>
      g == Some(MentorException(InvalidMentorApplication))
    ensures g == Some(AccessDenied) <==>
      mentorClasses.Some? && Applies.FindApply(applies, applyId).Some? &&
      applies[Applies.FindApply(applies, applyId).value].mentoringClassId !in mentorClasses.value
    ensures g.None? <==>
      mentorClasses.Some? && Applies.FindApply(applies, applyId).Some? &&
      applies[Applies.FindApply(applies, applyId).value].mentoringClassId in mentorClasses.value &&
      !IsFinal(applies[Applies.FindApply(applies, applyId).value].applyStatus)
  {
    if mentorClasses.None? then Some(MentorException(MentorNotFound))
    else
      match Applies.FindApply(applies, applyId)
      case None => Some(MentorException(InvalidMentorApplication))
      case Some(k) =>
        if applies[k].mentoringClassId !in mentorClasses.value then Some(AccessDenied)
        else if IsFinal(applies[k].applyStatus) then Some(MentorException(InvalidMentorApplication))
        else None
  }

  /** The table with the status of the row at position k replaced. */
  function WithStatus(applies: seq<Applies.Apply>, k: nat, status: Applies.ApplyStatus): (r: seq<Applies.Apply>)
    requires k < |applies|
    ensures |r| == |applies| && r[k].applyStatus == status
    ensures forall i :: 0 <= i < |applies| ==> r[i].applymentId == applies[i].applymentId
    ensures forall i :: 0 <= i < |applies| ==> r[i].mentoringClassId == applies[i].mentoringClassId
    ensures forall i :: 0 <= i < |applies| && i != k ==> r[i] == applies[i]
    ensures r[k] == applies[k].(applyStatus := status)
  {
    applies[k := applies[k].(applyStatus := status)]
  }

  /** Lookup by id depends only on the ids. */
  lemma {:induction false} FindApplyByIds(a: seq<Applies.Apply>, b: seq<Applies.Apply>, applyId: int)
    requires |a| == |b| && forall i :: 0 <= i < |a| ==> a[i].applymentId == b[i].applymentId
    ensures Applies.FindApply(a, applyId) == Applies.FindApply(b, applyId)
  {
    if a != [] {
      FindApplyByIds(a[..|a| - 1], b[..|b| - 1], applyId);
    }
  }

  /** After a mentor approves or rejects an application, every later decision on it is refused. */
  lemma DecisionIsFinal(classes: seq<int>, applies: seq<Applies.Apply>, applyId: int, status: Applies.ApplyStatus)
    requires ApplyStatusGuard(Some(classes), applies, applyId).None? && IsFinal(status)
    ensures var after := WithStatus(applies, Applies.FindApply(applies, applyId).value, status);
      ApplyStatusGuard(Some(classes), after, applyId) == Some(MentorException(InvalidMentorApplication))
  {
    var k := Applies.FindApply(applies, applyId).value;
    FindApplyByIds(applies, WithStatus(applies, k, status), applyId);
  }

  // ------------------------------------------------------------------
  // The service
  // ------------------------------------------------------------------

  class MentorService {
    /** memberRepository */
    var members: map<int, Members.Member>
    /** jobRepository, as the set of job ids */
    var jobs: set<int>
    /** mentorRepository, keyed by the mentor's (member) id */
    var mentors: map<int, Mentor>
    /** mentorApplyProposalRepository, in save order */
    var applyProposals: seq<ApplyProposal>
    var nextApplyProposalId: nat
    /** mentorEditProposalRepository, in save order */
    var editProposals: seq<EditProposal>
    var nextEditProposalId: nat
    /** applyRepository */
    var applies: seq<Applies.Apply>

    /** Each mentor's modification status, by id. */
    function Statuses(): map<int, ModificationStatus>
      reads this, mentors.Values
    {
      map k | k in mentors :: mentors[k].modificationStatus
    }

    /** Each mentor's current editable fields, by id. */
    function Profiles(): map<int, Profile>
      reads this, mentors.Values
    {
      map k | k in mentors :: mentors[k].CurrentProfile()
    }

    ghost predicate Valid()
      reads this, mentors.Values
    {
      (forall k :: k in mentors ==> mentors[k].id == Some(k) && mentors[k].memberId == k) &&
      OneApplyProposalPerMember(applyProposals) &&
      PendingEditsTracked(editProposals, Statuses()) &&
      AtMostOnePendingEdit(editProposals)
    }

    constructor (members: map<int, Members.Member>, jobs: set<int>, mentors: map<int, Mentor>, applies: seq<Applies.Apply>)
      requires forall k :: k in mentors ==> mentors[k].id == Some(k) && mentors[k].memberId == k
      ensures Valid()
      ensures this.members == members && this.jobs == jobs && this.mentors == mentors && this.applies == applies
      ensures applyProposals == [] && editProposals == []
    {
      this.members := members;
      this.jobs := jobs;
      this.mentors := mentors;
      this.applies := applies;
      this.applyProposals := [];
      this.nextApplyProposalId := 1;
      this.editProposals := [];
      this.nextEditProposalId := 1;
    }

    /**
     * applyMentor: after the guards, one PENDING proposal copying the request is saved.
     * Uploading the files is not part of this model.
     */
    method ApplyMentor(req: ApplyProposalRequest, files: Option<seq<MultipartFile>>) returns (r: Result<ApplyProposal, MentorError>)
      requires Valid()
      modifies this`applyProposals, this`nextApplyProposalId
      ensures Valid()
      ensures ApplyMentorGuard(files, members, jobs, old(applyProposals), req).Some? ==>
        r == Err(MentorException(ApplyMentorGuard(files, members, jobs, old(applyProposals), req).value)) &&
        applyProposals == old(applyProposals)
      ensures ApplyMentorGuard(files, members, jobs, old(applyProposals), req).None? ==>
        r == Ok(NewApplyProposal(old(nextApplyProposalId), req)) && applyProposals == old(applyProposals) + [r.value]
    {
      var guard := ApplyMentorGuard(files, members, jobs, applyProposals, req);
      if guard.Some? {
        return Err(MentorException(guard.value));
      }
      var proposal := NewApplyProposal(nextApplyProposalId, req);
      applyProposals := applyProposals + [proposal];
      nextApplyProposalId := nextApplyProposalId + 1;
      r := Ok(proposal);
    }

    /**
     * updateMentor: after the guards, one PENDING edit proposal is saved and the mentor's
     * modification status becomes PENDING; the mentor's own fields stay as they were.
     * Uploading the files is not part of this model.
     */
    method UpdateMentor(memberId: int, req: EditRequest, hasChanges: bool, files: Option<seq<MultipartFile>>, now: int)
      returns (r: Result<EditProposal, MentorError>)
      requires Valid()
      modifies this`editProposals, this`nextEditProposalId,
               (if memberId in mentors then {mentors[memberId]} else {})`modificationStatus
      ensures Valid()
      ensures var g := UpdateMentorGuard(files, req, if memberId in old(Statuses()) then Some(old(Statuses())[memberId]) else None,
                                         hasChanges, jobs);
        (g.Some? ==> r == Err(MentorException(g.value)) && editProposals == old(editProposals) && Statuses() == old(Statuses())) &&
        (g.None? ==>
          r == Ok(EditProposal(old(nextEditProposalId), memberId,
                               Profile(req.career, req.currentCompany, req.jobId, req.introduction),
                               ProposalPending, now)) &&
          editProposals == old(editProposals) + [r.value] &&
          Statuses() == old(Statuses())[memberId := RequestPending])
      ensures Profiles() == old(Profiles())
    {
      var status := if memberId in mentors then Some(mentors[memberId].modificationStatus) else None;
      var guard := UpdateMentorGuard(files, req, status, hasChanges, jobs);
      if guard.Some? {
        return Err(MentorException(guard.value));
      }
      var mentor := mentors[memberId];
      var proposal := EditProposal(nextEditProposalId, mentor.memberId,
                                   Profile(req.career, req.currentCompany, req.jobId, req.introduction),
                                   ProposalPending, now);
      PendingEditStaysUnique(editProposals, Statuses(), proposal);
      ghost var before := Statuses();
      assert forall k :: k in mentors && k != memberId ==> mentors[k] != mentor;
      editProposals := editProposals + [proposal];
      nextEditProposalId := nextEditProposalId + 1;
      mentor.UpdateModificationStatus(RequestPending);
      assert Statuses() == before[memberId := RequestPending];
      r := Ok(proposal);
    }

    /** getModificationRequests: a read-only query over the edit proposals and the mentors' current fields. */
    method GetModificationRequests(memberId: int, params: ModificationRequestParams)
      returns (r: Result<ChangeListResponse, MentorError>)
      ensures var spec := ModificationRequests(Profiles(), editProposals, memberId, params);
        (spec.Ok? ==> r == Ok(spec.value)) && (spec.Err? ==> r == Err(MentorException(spec.error)))
    {
      var result := ModificationRequests(Profiles(), editProposals, memberId, params);
      if result.Err? {
        return Err(MentorException(result.error));
      }
      r := Ok(result.value);
    }

    /** updateApplyStatus: a mentor decides on a pending application to one of its own classes. */
    method UpdateApplyStatus(memberId: int, applyId: int, status: Applies.ApplyStatus)
      returns (r: Result<Applies.Apply, MentorError>)
      modifies this`applies
      ensures var classes := if memberId in mentors then Some(mentors[memberId].mentorings) else None;
        var g := ApplyStatusGuard(classes, old(applies), applyId);
        (g.Some? ==> r == Err(g.value) && applies == old(applies)) &&
        (g.None? ==>
          var k := Applies.FindApply(old(applies), applyId).value;
          applies == WithStatus(old(applies), k, status) && r == Ok(applies[k]))
    {
      var classes := if memberId in mentors then Some(mentors[memberId].mentorings) else None;
      var guard := ApplyStatusGuard(classes, applies, applyId);
      if guard.Some? {
        return Err(guard.value);
      }
      var k := Applies.FindApply(applies, applyId).value;
      applies := WithStatus(applies, k, status);
      r := Ok(applies[k]);
    }
  }
}
