/**
 * Mentoring classes (MentoringClassService): creating a class for an existing mentor,
 * reading and deleting one, and the owner's partial update, where an absent request field
 * leaves the stored value as it is.
 */
module MentoringClasses {
  import opened Wrappers
  import opened Text

  /** A class's weekly slot; day and time are kept as the text the request carries. */
  datatype Schedule = Schedule(dayOfWeek: string, time: string)

  /** `ScheduleRequest` */
  datatype ScheduleRequest = ScheduleRequest(dayOfWeek: string, time: string)

  /** `MentoringClassCreateRequest`, as the service reads it: the stack is a list of names. */
  datatype CreateRequest = CreateRequest(
    title: Option<string>, stack: seq<string>, content: Option<string>, price: int, schedules: seq<ScheduleRequest>)

  /** `MentoringClassUpdateRequest`: a null field is `None` and leaves the stored value alone. */
  datatype UpdateRequest = UpdateRequest(
    title: Option<string>, content: Option<string>, price: Option<int>, stack: Option<seq<string>>,
    schedule: Option<ScheduleRequest>)

  /** The stored fields of a class, as one value. */
  datatype ClassState = ClassState(
    title: Option<string>, stack: Option<string>, content: Option<string>, price: int, schedules: seq<Schedule>)

  /** The class part of `MentoringClassDetailResponse`. */
  datatype ClassDetail = ClassDetail(classId: nat, state: ClassState)

  /** The class part of `MentoringClassUpdateResponse`: the stack split back at ',' and the first slot. */
  datatype UpdateResponse = UpdateResponse(
    classId: nat, stack: seq<string>, content: Option<string>, title: Option<string>, price: int, firstSchedule: Schedule)

  datatype ClassError =
    | MentorNotFound       // MentoringClassException: no such mentor
    | ClassNotFound        // MENTORING_CLASS_NOT_FOUND
    | Unauthorized         // MENTORING_CLASS_UNAUTHORIZED
    | NoSchedule           // `getSchedules().get(0)` on a class without schedules
    | NullStack            // `getStack().split(",")` on a class whose stack stayed null

  /** The stored form of a stack list. */
  function StackText(names: seq<string>): string {
    Join(names, ',')
  }

  /** A stack list survives storage when no name holds a comma and the last name is not empty. */
  lemma StackRoundTrip(names: seq<string>)
    requires |names| > 0 && names[|names| - 1] != ""
    requires forall i :: 0 <= i < |names| ==> ',' !in names[i]
    ensures JavaSplit(StackText(names), ',') == names
  {
    JavaSplitJoin(names, ',');
  }

  /** The lines of updateClass that touch the class: each given field overwrites, an absent one keeps its value. */
  function Patched(s: ClassState, req: UpdateRequest): (r: ClassState)
    ensures r.title == (if req.title.Some? then req.title else s.title)
    ensures r.content == (if req.content.Some? then req.content else s.content)
    ensures r.price == (if req.price.Some? then req.price.value else s.price)
    ensures r.stack == (if req.stack.Some? then Some(StackText(req.stack.value)) else s.stack)
    ensures |r.schedules| == |s.schedules|
    ensures forall i :: 1 <= i < |s.schedules| ==> r.schedules[i] == s.schedules[i]
    ensures |s.schedules| > 0 ==>
      r.schedules[0] == (if req.schedule.Some? then Schedule(req.schedule.value.dayOfWeek, req.schedule.value.time)
                         else s.schedules[0])
  {
    ClassState(
      if req.title.Some? then req.title else s.title,
      if req.stack.Some? then Some(StackText(req.stack.value)) else s.stack,
      if req.content.Some? then req.content else s.content,
      if req.price.Some? then req.price.value else s.price,
      if req.schedule.Some? && |s.schedules| > 0
      then s.schedules[0 := Schedule(req.schedule.value.dayOfWeek, req.schedule.value.time)]
      else s.schedules)
  }

  /** A request with every field null changes nothing. */
  lemma EmptyPatchIsIdentity(s: ClassState)
    ensures Patched(s, UpdateRequest(None, None, None, None, None)) == s
  {
  }

  /** Sending the same update twice has the effect of sending it once. */
  lemma PatchIdempotent(s: ClassState, req: UpdateRequest)
    ensures Patched(Patched(s, req), req) == Patched(s, req)
  {
  }

  /** The later request's non-null fields win; the earlier one's survive where the later is null. */
  function Merge(first: UpdateRequest, second: UpdateRequest): UpdateRequest {
    UpdateRequest(
      if second.title.Some? then second.title else first.title,
      if second.content.Some? then second.content else first.content,
      if second.price.Some? then second.price else first.price,
      if second.stack.Some? then second.stack else first.stack,
      if second.schedule.Some? then second.schedule else first.schedule)
  }

  /** Two updates in a row are one update with the fields merged. */
  lemma PatchesCompose(s: ClassState, first: UpdateRequest, second: UpdateRequest)
    ensures Patched(Patched(s, first), second) == Patched(s, Merge(first, second))
  {
    var a := Patched(Patched(s, first), second);
    var b := Patched(s, Merge(first, second));
    assert a.schedules == b.schedules;
  }

  /**
   * The runtime failures of an owner's updateClass, in the order the source meets them:
   * a schedule update reads the first slot, the reply splits the stack, then reads the first slot.
   */
  function UpdateFailure(s: ClassState, req: UpdateRequest): (g: Option<ClassError>)
    ensures g.None? <==> |s.schedules| > 0 && Patched(s, req).stack.Some?
    ensures g == Some(NullStack) <==>
      Patched(s, req).stack.None? && (|s.schedules| > 0 || req.schedule.None?)
    ensures g.Some? ==> g == Some(NullStack) || g == Some(NoSchedule)
  {
    if req.schedule.Some? && |s.schedules| == 0 then Some(NoSchedule)
    else if req.stack.None? && s.stack.None? then Some(NullStack)
    else if |s.schedules| == 0 then Some(NoSchedule)
    else None
  }

  /** A class created with at least one schedule request never fails an owner's update. */
  lemma CreatedClassUpdates(c: CreateRequest, req: UpdateRequest)
    requires |c.schedules| > 0
    ensures UpdateFailure(Created(c), req).None?
  {
  }

  /** The state createClass stores: the given fields, the stack joined with ',', one slot per schedule request. */
  function Created(req: CreateRequest): (s: ClassState)
    ensures |s.schedules| == |req.schedules|
    ensures forall i :: 0 <= i < |req.schedules| ==>
      s.schedules[i] == Schedule(req.schedules[i].dayOfWeek, req.schedules[i].time)
  {
    ClassState(req.title, Some(StackText(req.stack)), req.content, req.price,
               seq(|req.schedules|, i requires 0 <= i < |req.schedules| =>
                 Schedule(req.schedules[i].dayOfWeek, req.schedules[i].time)))
  }

  class MentoringClass {
    var id: nat
    /** The id of the owning mentor. */
    var mentorId: int
    var title: Option<string>
    var stack: Option<string>
    var content: Option<string>
    var price: int
    var schedules: seq<Schedule>

    function State(): ClassState
      reads this
    {
      ClassState(title, stack, content, price, schedules)
    }

    constructor (id: nat, mentorId: int, state: ClassState)
      ensures this.id == id && this.mentorId == mentorId && State() == state
    {
      this.id := id;
      this.mentorId := mentorId;
      this.title := state.title;
      this.stack := state.stack;
      this.content := state.content;
      this.price := state.price;
      this.schedules := state.schedules;
    }
  }

  /** `deleteById` once written: the class with that id is gone, if there was one, and every other class stays. */
  function Deleted(classes: map<nat, MentoringClass>, classId: int): (r: map<nat, MentoringClass>)
    ensures forall k :: k in r <==> k in classes && k != classId
    ensures forall k :: k in r ==> r[k] == classes[k]
  {
    if classId >= 0 then classes - {classId as nat} else classes
  }

  /**
   * deleteClass as written keeps the table as it was, while the delete it means to do removes
   * any stored class: the two differ on every stored id.
   */
  lemma DeleteIsLost(classes: map<nat, MentoringClass>, classId: int)
    requires 0 <= classId && classId as nat in classes
    ensures classId as nat !in Deleted(classes, classId) && Deleted(classes, classId) != classes
  {
  }

  class MentoringClassService {
    /** mentoringClassRepository, keyed by class id */
    var classes: map<nat, MentoringClass>
    /** the id the next saved class receives */
    var nextId: nat
    /** mentorRepository, as the set of mentor ids */
    var mentors: set<int>

    ghost predicate Valid()
      reads this, classes.Values
    {
      forall k :: k in classes ==> classes[k].id == k && k < nextId
    }

    constructor (mentors: set<int>)
      ensures Valid() && classes == map[] && this.mentors == mentors
    {
      this.classes := map[];
      this.nextId := 1;
      this.mentors := mentors;
    }

    /** createClass: an unknown mentor is refused and nothing is stored; otherwise one new class is added. */
    method CreateClass(mentorId: int, req: CreateRequest) returns (r: Result<ClassDetail, ClassError>)
      requires Valid()
      modifies this`classes, this`nextId
      ensures Valid()
      ensures mentorId !in mentors ==> r == Err(MentorNotFound) && classes == old(classes)
      ensures mentorId in mentors ==>
        var id := old(nextId);
        id !in old(classes) && id in classes && fresh(classes[id]) &&
        classes == old(classes)[id := classes[id]] &&
        classes[id].mentorId == mentorId && classes[id].State() == Created(req) &&
        r == Ok(ClassDetail(id, Created(req)))
    {
      if mentorId !in mentors {
        return Err(MentorNotFound);
      }
      var created := new MentoringClass(nextId, mentorId, Created(req));
      classes := classes[nextId := created];
      r := Ok(ClassDetail(nextId, created.State()));
      nextId := nextId + 1;
    }

    /** findOneClass */
    method FindOneClass(classId: int) returns (r: Result<ClassDetail, ClassError>)
      requires Valid()
      ensures r.Err? <==> classId !in classes
      ensures r.Err? ==> r.error == ClassNotFound
      ensures r.Ok? ==> r.value == ClassDetail(classId, classes[classId].State())
    {
      if classId < 0 || classId !in classes {
        return Err(ClassNotFound);
      }
      r := Ok(ClassDetail(classId, classes[classId].State()));
    }

    /**
     * deleteClass as written. It has no `@Transactional` of its own, so it runs in the class-wide
     * read-only transaction. That transaction never flushes, so the `deleteById` removal is never
     * written, and the table stays as it was.
     */
    method DeleteClass(classId: int)
      requires Valid()
      ensures Valid()
      ensures classes == old(classes)
    {
    }

    /**
     * deleteClass in a write transaction of its own, as updateClass has: `deleteById` removes the
     * class with that id and ignores an id that is not stored.
     */
    method DeleteClassCommitted(classId: int)
      requires Valid()
      modifies this`classes
      ensures Valid()
      ensures classes == Deleted(old(classes), classId)
    {
      classes := Deleted(classes, classId);
    }

    /**
     * updateClass. Only the owning mentor may update; each non-null request field overwrites
     * its stored value and a schedule rewrites only the first slot. A class without any slot
     * fails on `get(0)`, a stack left null fails on `split`, and the transaction leaves the
     * class as it was.
     */
    method UpdateClass(classId: int, memberId: int, req: UpdateRequest) returns (r: Result<UpdateResponse, ClassError>)
      requires Valid()
      modifies if classId in classes then {classes[classId]} else {}
      ensures Valid()
      ensures classId !in classes ==> r == Err(ClassNotFound)
      ensures classId in classes && classes[classId].mentorId != memberId ==>
        r == Err(Unauthorized) && classes[classId].State() == old(classes[classId].State())
      ensures (classId in classes && classes[classId].mentorId == memberId &&
               UpdateFailure(old(classes[classId].State()), req).Some?) ==>
        r == Err(UpdateFailure(old(classes[classId].State()), req).value) &&
        classes[classId].State() == old(classes[classId].State())
      ensures r.Ok? ==>
        classId in classes && classes[classId].mentorId == memberId &&
        classes[classId].State() == Patched(old(classes[classId].State()), req)
      ensures r.Ok? ==>
        var s := classes[classId].State();
        r.value == UpdateResponse(classId, JavaSplit(s.stack.value, ','), s.content, s.title, s.price, s.schedules[0])
      ensures (classId in classes && classes[classId].mentorId == memberId &&
               UpdateFailure(old(classes[classId].State()), req).None?) ==> r.Ok?
    {
      if classId < 0 || classId !in classes {
        return Err(ClassNotFound);
      }
      var c := classes[classId];
      if c.mentorId != memberId {
        return Err(Unauthorized);
      }
      var failure := UpdateFailure(c.State(), req);
      if failure.Some? {
        return Err(failure.value);
      }
      if req.title.Some? {
        c.title := req.title;
      }
      if req.content.Some? {
        c.content := req.content;
      }
      if req.price.Some? {
        c.price := req.price.value;
      }
      if req.stack.Some? {
        c.stack := Some(StackText(req.stack.value));
      }
      if req.schedule.Some? {
        c.schedules := c.schedules[0 := Schedule(req.schedule.value.dayOfWeek, req.schedule.value.time)];
      }
      r := Ok(UpdateResponse(classId, JavaSplit(c.stack.value, ','), c.content, c.title, c.price, c.schedules[0]));
    }
  }
}
