/** A mentor application (MentorApplication): created PENDING, reviewed, and turned into a Mentor once approved. */
module MentorApplications {
  import opened Wrappers
  import Mentors

  /** `MentorApplication.ApplicationStatus` */
  datatype ApplicationStatus = Pending | Approved | Rejected

  /** The `IllegalStateException` toMentor raises for an application that is not approved. */
  datatype ConversionError = NotApproved

  class MentorApplication {
    var id: Option<int>
    var memberId: int
    var jobId: int
    var status: ApplicationStatus
    var name: string
    var currentCompany: Option<string>
    var career: int
    var phone: string
    var introduction: string
    var bestFor: Option<string>
    var reviewerId: Option<int>

    /** The builder constructor: every application starts PENDING, whatever it is built from. */
    constructor (memberId: int, jobId: int, name: string, currentCompany: Option<string>, career: int,
                 phone: string, introduction: string, bestFor: Option<string>)
      ensures this.memberId == memberId && this.jobId == jobId && this.name == name
      ensures this.currentCompany == currentCompany && this.career == career && this.phone == phone
      ensures this.introduction == introduction && this.bestFor == bestFor
      ensures this.id.None? && this.reviewerId.None?
      ensures status == Pending
    {
      this.id := None;
      this.memberId := memberId;
      this.jobId := jobId;
      this.name := name;
      this.currentCompany := currentCompany;
      this.career := career;
      this.phone := phone;
      this.introduction := introduction;
      this.bestFor := bestFor;
      this.reviewerId := None;
      this.status := Pending;
    }

    /** `updateStatus`: the rejection reason is accepted and dropped; only the status changes. */
    method UpdateStatus(status: ApplicationStatus, rejectionReason: Option<string>)
      modifies this`status
      ensures this.status == status
    {
      this.status := status;
    }

    /**
     * `toMentor`: refused unless the application is APPROVED; otherwise a new, approved
     * Mentor carrying the application's member, job, name, career, phone, company,
     * introduction and best-for, with no id and no email yet.
     */
    method ToMentor() returns (r: Result<Mentors.Mentor, ConversionError>)
      ensures r.Err? <==> status != Approved
      ensures r.Err? ==> r.error == NotApproved
      ensures r.Ok? ==> fresh(r.value)
      ensures r.Ok? ==>
        var m := r.value;
        m.memberId == memberId && m.jobId == jobId && m.name == name && m.career == career &&
        m.phone == phone && m.currentCompany == currentCompany && m.introduction == introduction &&
        m.bestFor == bestFor && m.id.None? && m.email.None?
      ensures r.Ok? ==> r.value.approvalStatus == Mentors.Approved && r.value.modificationStatus == Mentors.NoRequest
    {
      if status != Approved {
        return Err(NotApproved);
      }
      var mentor := new Mentors.Mentor.Build(None, memberId, jobId, name, currentCompany, career, phone, None,
                                             introduction, bestFor, Some(Mentors.Approved), None);
      r := Ok(mentor);
    }
  }

  /** A freshly built application is PENDING, so converting it straight away always fails. */
  method FreshApplicationIsNotConvertible(memberId: int, jobId: int, name: string, currentCompany: Option<string>,
                                          career: int, phone: string, introduction: string, bestFor: Option<string>)
    returns (r: Result<Mentors.Mentor, ConversionError>)
    ensures r == Err(NotApproved)
  {
    var application := new MentorApplication(memberId, jobId, name, currentCompany, career, phone, introduction, bestFor);
    r := application.ToMentor();
  }

  /** Approval is what makes the conversion succeed, whatever the application was before. */
  method ApprovedApplicationConverts(application: MentorApplication) returns (r: Result<Mentors.Mentor, ConversionError>)
    modifies application`status
    ensures r.Ok? && r.value.approvalStatus == Mentors.Approved && r.value.memberId == application.memberId
  {
    application.UpdateStatus(Approved, None);
    r := application.ToMentor();
  }
}
