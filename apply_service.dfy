/**
 * Mentoring applications (ApplyService): creating an application after its guards,
 * cancelling one's own application, and listing a member's applications page by page.
 */
module Applies {
  import opened Wrappers
  import opened Paging

  /** `ApplyStatus`; its values are taken to be PENDING, APPROVED and REJECTED. */
  datatype ApplyStatus = Pending | Approved | Rejected

  /** A stored application; the schedule is an opaque date-time. */
  datatype Apply = Apply(
    applymentId: nat, mentoringClassId: int, memberId: int,
    inquiry: Option<string>, applyStatus: ApplyStatus, schedule: int)

  /** `ApplyCreateRequest`; a missing schedule is null. */
  datatype ApplyCreateRequest = ApplyCreateRequest(classId: int, inquiry: Option<string>, schedule: Option<int>)

  /** The exceptions the service raises, by error code. */
  datatype ApplyError =
    | MentoringClassNotFound   // MentoringClassException
    | MemberNotFound           // MemberException
    | CanNotApplyYourClass     // ApplyException
    | ScheduleRequired         // ApplyException
    | ApplyNotFound            // ApplyException
    | NotYourApply             // ApplyException
    | InvalidPageRequest       // IllegalArgumentException from PageRequest.of

  /** `ApplyPageResponse`: one page of applications with the request's page and size echoed. */
  datatype ApplyPage = ApplyPage(content: seq<Apply>, page: int, size: int, totalElements: nat)

  /** The guards of createApply in the order the source checks them; `None` lets the insert proceed. */
  function CreateGuard(classMentors: map<int, int>, members: set<int>, req: ApplyCreateRequest, memberId: int)
    : (g: Option<ApplyError>)
    ensures g == Some(MentoringClassNotFound) <==> req.classId !in classMentors
    ensures g == Some(MemberNotFound) <==> req.classId in classMentors && memberId !in members
    ensures g == Some(CanNotApplyYourClass) <==>
      req.classId in classMentors && memberId in members && classMentors[req.classId] == memberId
    ensures g == Some(ScheduleRequired) <==>
      req.classId in classMentors && memberId in members && classMentors[req.classId] != memberId && req.schedule.None?
    ensures g.None? <==>
      req.classId in classMentors && memberId in members && classMentors[req.classId] != memberId && req.schedule.Some?
  {
    if req.classId !in classMentors then Some(MentoringClassNotFound)
    else if memberId !in members then Some(MemberNotFound)
    else if classMentors[req.classId] == memberId then Some(CanNotApplyYourClass)
    else if req.schedule.None? then Some(ScheduleRequired)
    else None
  }

  /** Ids are issued in increasing order and are all below the next id. */
  ghost predicate IdsAscendingBelow(applies: seq<Apply>, nextId: nat) {
    (forall i :: 0 <= i < |applies| ==> applies[i].applymentId < nextId) &&
    (forall i, j :: 0 <= i < j < |applies| ==> applies[i].applymentId < applies[j].applymentId)
  }

  /** `applyRepository.findById`: the position of the application with that id. */
  function FindApply(applies: seq<Apply>, applyId: int): (r: Option<nat>)
    ensures r.Some? ==> r.value < |applies| && applies[r.value].applymentId == applyId
    ensures r.None? ==> forall i :: 0 <= i < |applies| ==> applies[i].applymentId != applyId
  {
    if applies == [] then None
    else if applies[|applies| - 1].applymentId == applyId then Some(|applies| - 1)
    else FindApply(applies[..|applies| - 1], applyId)
  }

  /** The guards of deleteApply; `None` lets the delete proceed. */
  function DeleteGuard(applies: seq<Apply>, applyId: int, memberId: int): (g: Option<ApplyError>)
    ensures g == Some(ApplyNotFound) <==> FindApply(applies, applyId).None?
    ensures g == Some(NotYourApply) <==>
      FindApply(applies, applyId).Some? && applies[FindApply(applies, applyId).value].memberId != memberId
    ensures g.None? <==>
      FindApply(applies, applyId).Some? && applies[FindApply(applies, applyId).value].memberId == memberId
  {
    match FindApply(applies, applyId)
    case None => Some(ApplyNotFound)
    case Some(k) => if applies[k].memberId != memberId then Some(NotYourApply) else None
  }

  /** The table without the row at position k: the rows before it stay put, the rows after it move up by one. */
  function RemoveAt(applies: seq<Apply>, k: nat): (r: seq<Apply>)
    requires k < |applies|
    ensures |r| == |applies| - 1
    ensures forall i :: 0 <= i < k ==> r[i] == applies[i]
    ensures forall i :: k <= i < |r| ==> r[i] == applies[i + 1]
    ensures forall a :: a in r ==> a in applies
  {
    applies[..k] + applies[k + 1..]
  }

  /** Removing a row keeps the ids ascending and below the next id. */
  lemma RemoveAtKeepsIds(applies: seq<Apply>, nextId: nat, k: nat)
    requires IdsAscendingBelow(applies, nextId) && k < |applies|
    ensures IdsAscendingBelow(RemoveAt(applies, k), nextId)
  {
    var r := RemoveAt(applies, k);
    forall i, j | 0 <= i < j < |r|
      ensures r[i].applymentId < r[j].applymentId
    {
      var i' := if i < k then i else i + 1;
      var j' := if j < k then j else j + 1;
      assert r[i] == applies[i'] && r[j] == applies[j'] && i' < j';
    }
  }

  /** With unique ids, a deleted application can no longer be found, and every other one still can. */
  lemma DeletedApplyIsGone(applies: seq<Apply>, nextId: nat, k: nat, otherId: int)
    requires IdsAscendingBelow(applies, nextId) && k < |applies|
    ensures FindApply(RemoveAt(applies, k), applies[k].applymentId).None?
    ensures otherId != applies[k].applymentId ==>
      (FindApply(RemoveAt(applies, k), otherId).Some? <==> FindApply(applies, otherId).Some?)
  {
    var r := RemoveAt(applies, k);
    var id := applies[k].applymentId;
    forall i | 0 <= i < |r|
      ensures r[i].applymentId != id
    {
      if i < k {
        assert r[i] == applies[i];
      } else {
        assert r[i] == applies[i + 1];
      }
    }
    if otherId != id && FindApply(applies, otherId).Some? {
      var j := FindApply(applies, otherId).value;
      var j' := if j < k then j else j - 1;
      assert r[j'] == applies[j];
    }
  }

  /** `findByMemberId`: the member's applications in id order. */
  function AppliesOf(applies: seq<Apply>, memberId: int): (r: seq<Apply>)
    ensures forall a :: a in r <==> a in applies && a.memberId == memberId
  {
    if applies == [] then []
    else
      var last := applies[|applies| - 1];
      AppliesOf(applies[..|applies| - 1], memberId) + (if last.memberId == memberId then [last] else [])
  }

  /** Once a row with a fresh id is appended it is found at the end. */
  lemma FindAppended(applies: seq<Apply>, nextId: nat, a: Apply)
    requires IdsAscendingBelow(applies, nextId) && a.applymentId == nextId
    ensures FindApply(applies + [a], nextId) == Some(|applies|)
  {
  }

  /**
   * Cancelling a just-created application: its creator may cancel it, nobody else may,
   * and the cancellation gives back the table as it was before the insert.
   */
  lemma {:induction false} CreateThenCancelRestores(applies: seq<Apply>, nextId: nat, a: Apply, other: int)
    requires IdsAscendingBelow(applies, nextId) && a.applymentId == nextId && other != a.memberId
    ensures DeleteGuard(applies + [a], nextId, a.memberId).None?
    ensures DeleteGuard(applies + [a], nextId, other) == Some(NotYourApply)
    ensures RemoveAt(applies + [a], |applies|) == applies
  {
    FindAppended(applies, nextId, a);
    assert (applies + [a])[..|applies|] == applies;
  }

  class ApplyService {
    /** applyRepository, in id order */
    var applies: seq<Apply>
    /** the id the next saved application receives */
    var nextId: nat
    /** memberRepository, as the set of known member ids */
    var members: set<int>
    /** mentoringClassRepository: each class id with the id of its mentor */
    var classMentors: map<int, int>

    ghost predicate Valid()
      reads this
    {
      IdsAscendingBelow(applies, nextId)
    }

    constructor (members: set<int>, classMentors: map<int, int>)
      ensures Valid() && applies == [] && this.members == members && this.classMentors == classMentors
    {
      this.applies := [];
      this.nextId := 1;
      this.members := members;
      this.classMentors := classMentors;
    }

    /** createApply: after the guards, exactly one PENDING application is saved and its id returned. */
    method CreateApply(req: ApplyCreateRequest, memberId: int) returns (r: Result<nat, ApplyError>)
      requires Valid()
      modifies this`applies, this`nextId
      ensures Valid()
      ensures CreateGuard(classMentors, members, req, memberId).Some? ==>
        r == Err(CreateGuard(classMentors, members, req, memberId).value) && applies == old(applies)
      ensures CreateGuard(classMentors, members, req, memberId).None? ==>
        r == Ok(old(nextId)) &&
        applies == old(applies) + [Apply(old(nextId), req.classId, memberId, req.inquiry, Pending, req.schedule.value)]
    {
      var guard := CreateGuard(classMentors, members, req, memberId);
      if guard.Some? {
        return Err(guard.value);
      }
      var apply := Apply(nextId, req.classId, memberId, req.inquiry, Pending, req.schedule.value);
      applies := applies + [apply];
      r := Ok(nextId);
      nextId := nextId + 1;
    }

    /** deleteApply: only the application's own member may remove it. */
    method DeleteApply(applyId: int, memberId: int) returns (r: Result<(), ApplyError>)
      requires Valid()
      modifies this`applies
      ensures Valid()
      ensures DeleteGuard(old(applies), applyId, memberId).Some? ==>
        r == Err(DeleteGuard(old(applies), applyId, memberId).value) && applies == old(applies)
      ensures DeleteGuard(old(applies), applyId, memberId).None? ==>
        r.Ok? && applies == RemoveAt(old(applies), FindApply(old(applies), applyId).value) &&
        FindApply(applies, applyId).None?
    {
      var found := FindApply(applies, applyId);
      if found.None? {
        return Err(ApplyNotFound);
      }
      var k := found.value;
      if applies[k].memberId != memberId {
        return Err(NotYourApply);
      }
      RemoveAtKeepsIds(applies, nextId, k);
      DeletedApplyIsGone(applies, nextId, k, applyId);
      applies := RemoveAt(applies, k);
      r := Ok(());
    }

    /** getApplyList: the member must exist, and `PageRequest.of` refuses page < 0 and size < 1. */
    method GetApplyList(memberId: int, page: int, size: int) returns (r: Result<ApplyPage, ApplyError>)
      ensures memberId !in members ==> r == Err(MemberNotFound)
      ensures memberId in members && (page < 0 || size < 1) ==> r == Err(InvalidPageRequest)
      ensures memberId in members && page >= 0 && size >= 1 ==>
        r == Ok(ApplyPage(PageSlice(AppliesOf(applies, memberId), page, size), page, size,
                          |AppliesOf(applies, memberId)|))
      ensures r.Ok? ==> |r.value.content| <= size
      ensures r.Ok? ==> forall a :: a in r.value.content ==> a in applies && a.memberId == memberId
    {
      if memberId !in members {
        return Err(MemberNotFound);
      }
      if page < 0 || size < 1 {
        return Err(InvalidPageRequest);
      }
      var mine := AppliesOf(applies, memberId);
      var content := PageSlice(mine, page, size);
      assert forall a :: a in content ==> a in mine;
      r := Ok(ApplyPage(content, page, size, |mine|));
    }
  }
}
