/** The mentor entity (Mentor): its two status machines and its in-place update methods. */
module Mentors {
  import opened Wrappers

  /** `Mentor.ApprovalStatus` */
  datatype ApprovalStatus = Pending | Approved | Rejected

  /** `Mentor.ModificationStatus`: NONE, PENDING, APPROVED, REJECTED. */
  datatype ModificationStatus = NoRequest | RequestPending | RequestApproved | RequestRejected

  /**
   * The fields an edit proposal can change, as compared field by field against the mentor.
   * A null company or introduction is `None`.
   */
  datatype Profile = Profile(career: int, currentCompany: Option<string>, jobId: int, introduction: Option<string>)

  class Mentor {
    /** The member's id (`@MapsId`); absent until the entity is persisted. */
    var id: Option<int>
    var memberId: int
    var jobId: int
    /** Ids of the mentor's post attachments. */
    var attachments: seq<int>
    /** Ids of the mentor's mentoring classes. */
    var mentorings: seq<int>
    var name: string
    var currentCompany: Option<string>
    var career: int
    var phone: string
    var email: Option<string>
    var introduction: string
    var approvalStatus: ApprovalStatus
    var modificationStatus: ModificationStatus
    var bestFor: Option<string>

    /** The editable fields as an edit proposal is compared against them. */
    function CurrentProfile(): (p: Profile)
      reads this
      ensures p.introduction == Some(introduction)
    {
      Profile(career, currentCompany, jobId, Some(introduction))
    }

    /**
     * `Mentor.builder()...build()`. The two statuses fall back to their builder defaults,
     * PENDING and NONE, when not given. The builder has no default for the attachment and
     * class lists, so it leaves them null; the model starts them empty instead.
     */
    constructor Build(id: Option<int>, memberId: int, jobId: int, name: string, currentCompany: Option<string>,
                      career: int, phone: string, email: Option<string>, introduction: string,
                      bestFor: Option<string>, approvalStatus: Option<ApprovalStatus>,
                      modificationStatus: Option<ModificationStatus>)
      ensures this.id == id && this.memberId == memberId && this.jobId == jobId && this.name == name
      ensures this.currentCompany == currentCompany && this.career == career && this.phone == phone
      ensures this.email == email && this.introduction == introduction && this.bestFor == bestFor
      ensures this.attachments == [] && this.mentorings == []
      ensures this.approvalStatus == approvalStatus.GetOr(Pending)
      ensures this.modificationStatus == modificationStatus.GetOr(NoRequest)
    {
      this.id := id;
      this.memberId := memberId;
      this.jobId := jobId;
      this.attachments := [];
      this.mentorings := [];
      this.name := name;
      this.currentCompany := currentCompany;
      this.career := career;
      this.phone := phone;
      this.email := email;
      this.introduction := introduction;
      this.approvalStatus := approvalStatus.GetOr(Pending);
      this.modificationStatus := modificationStatus.GetOr(NoRequest);
      this.bestFor := bestFor;
    }

    /** `updateApprovalStatus`: only the approval status changes. */
    method UpdateApprovalStatus(status: ApprovalStatus)
      modifies this`approvalStatus
      ensures approvalStatus == status
    {
      approvalStatus := status;
    }

    /** `updateModificationStatus`: only the modification status changes. */
    method UpdateModificationStatus(status: ModificationStatus)
      modifies this`modificationStatus
      ensures modificationStatus == status
    {
      modificationStatus := status;
    }

    /** `updateAttachments`: only the attachment list is replaced. */
    method UpdateAttachments(attachments: seq<int>)
      modifies this`attachments
      ensures this.attachments == attachments
    {
      this.attachments := attachments;
    }

    /**
     * `update`: overwrites exactly the company, career, phone, email, introduction and
     * best-for fields and marks a modification as pending; id, member, job, name,
     * approval status and the collections keep their values.
     */
    method Update(currentCompany: Option<string>, career: int, phone: string, email: Option<string>,
                  introduction: string, bestFor: Option<string>)
      modifies this`currentCompany, this`career, this`phone, this`email, this`introduction,
               this`bestFor, this`modificationStatus
      ensures this.currentCompany == currentCompany && this.career == career && this.phone == phone
      ensures this.email == email && this.introduction == introduction && this.bestFor == bestFor
      ensures modificationStatus == RequestPending
      ensures CurrentProfile() == Profile(career, currentCompany, jobId, Some(introduction))
    {
      this.currentCompany := currentCompany;
      this.career := career;
      this.phone := phone;
      this.email := email;
      this.introduction := introduction;
      this.bestFor := bestFor;
      this.modificationStatus := RequestPending;
    }
  }
}
