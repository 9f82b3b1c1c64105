# DeMentor core, modelled in Dafny

This project models the service core of DeMentor, a mentoring platform built on Spring. It covers:

- the chat-room registry, the chat access check and the counterparty labels (`ChatRoomService`);
- the mentor onboarding and modification workflow (`MentorService`, the `Mentor` and `MentorApplication` entities);
- the mentoring-application lifecycle (`ApplyService`);
- creating, reading, deleting and partially updating mentoring classes (`MentoringClassService`);
- post attachments: ownership, upload limits, markdown image references, and the extension and content-type tables (`PostAttachmentService`);
- the upload gate and Content-Disposition header of `PostAttachmentController`;
- the JWT cookie helpers (`CookieUtil`);
- single-use e-mail verification codes (`EmailService`).

Each service is a class whose fields are its repositories: a sequence of rows in save order, or a map keyed by id. Each method's postcondition ties the new state and the result to a pure function of the old state. The properties are proved as lemmas about those functions. Collaborators the code cannot see are parameters of the operations: file storage, the UUID generator, the random number generator, `URLEncoder`, the regex matcher and the mail sender.

Modules, one per source file or shared concern:

- `Wrappers` (Option, Result), `Text` (Java string helpers), `Paging` (Spring paging as a list window);
- `Members`, `Multipart`;
- `ChatRooms`, `Mentors`, `MentorApplications`, `MentorServices`, `Applies`, `MentoringClasses`;
- `PostAttachments`, `PostAttachmentControllers`, `Cookies`, `EmailVerification`.

Where the code and its design notes disagree, the model follows the code:

- `getOrCreateMentoringChatRoom` always saves a new room, because its lookup of an existing room is commented out. Two calls for the same pair give two rooms (`ChatRooms.TwoMentoringRoomsForOnePair`).
- `createAdminChatRooms` does look up first, and is proved idempotent (`ChatRooms.AdminRoomIdempotent`).

## Model

Paths are relative to the repository root.

| member | source | states |
|---|---|---|
| ChatRooms.CheckAccess | src/main/java/com/dementor/domain/chat/service/ChatRoomService.java:137-157 | A mentoring room admits only ROLE_MENTOR or ROLE_MENTEE callers who are its mentor or mentee. An admin room admits a ROLE_ADMIN caller iff it is the room's admin, and any other caller iff it is the room's member. Each refusal carries its own error. |
| ChatRooms.CacheWith | src/main/java/com/dementor/domain/chat/service/ChatRoomService.java:39 | `computeIfAbsent` adds the id on a miss and never overwrites an existing entry. |
| ChatRooms.TargetNickname | src/main/java/com/dementor/domain/chat/service/ChatRoomService.java:182-214 | In a mentoring room the label is the cached nickname of the counterparty: the mentee for the mentor, the mentor for anyone else. An admin viewing its own room gets the member's nickname, or the fallback label. The room's member gets "관리자". Every other combination gets "알 수 없음". |
| ChatRooms.CachedEntryIsFinal | src/main/java/com/dementor/domain/chat/service/ChatRoomService.java:184-193 | Once the counterparty is cached, that entry is the label (the fallback included), whatever the member table says later, and the cache stays unchanged. |
| ChatRooms.ResolveTwice | src/main/java/com/dementor/domain/chat/service/ChatRoomService.java:182-194 | Resolving the same label a second time gives the same answer and leaves the cache as the first resolution left it. |
| ChatRooms.View | src/main/java/com/dementor/domain/chat/service/ChatRoomService.java:165-179 | The projection keeps the room's id and type. The last message and its time are absent exactly when the room has no message. The label is `TargetNickname`. |
| ChatRooms.ViewsAll | src/main/java/com/dementor/domain/chat/service/ChatRoomService.java:105-108 | A list of rooms is projected in order, one view per room, each reading the cache its predecessors left. |
| ChatRooms.CacheAfterAllKeeps | src/main/java/com/dementor/domain/chat/service/ChatRoomService.java:189-193 | Projecting a list of rooms keeps every cache entry that already existed. |
| ChatRooms.LabelsMatchFinalCache | src/main/java/com/dementor/domain/chat/service/ChatRoomService.java:184-193 | Within one listing, every mentoring room's label equals the final cache entry of its counterparty. |
| ChatRooms.AdminRoomsLeaveCache | src/main/java/com/dementor/domain/chat/service/ChatRoomService.java:197-213 | Admin rooms never touch the nickname cache. |
| ChatRooms.AdminSeesMemberNicknames | src/main/java/com/dementor/domain/chat/service/ChatRoomService.java:198-204 | The admin who lists its own rooms sees each room's member nickname, or the fallback label. |
| ChatRooms.AddRoom | src/main/java/com/dementor/domain/chat/service/ChatRoomService.java:54-61 | Saving a room appends it with the next sequential id, and leaves the earlier rows unchanged. |
| ChatRooms.FindRoom | src/main/java/com/dementor/domain/chat/service/ChatRoomService.java:130-131 | Lookup by id finds a stored room with that id, or reports that none exists. |
| ChatRooms.Filter | src/main/java/com/dementor/domain/chat/service/ChatRoomService.java:102-103 | A repository query returns exactly the stored rooms that satisfy it, in table order. |
| ChatRooms.FilterAdd | src/main/java/com/dementor/domain/chat/service/ChatRoomService.java:89-94 | A saved room shows up at the end of every listing it belongs to, and in no other listing. |
| ChatRooms.TwoMentoringRoomsForOnePair | src/main/java/com/dementor/domain/chat/service/ChatRoomService.java:43-62 | Two calls for the same mentor and mentee yield two distinct rooms for that pair. |
| ChatRooms.AdminRoomFor | src/main/java/com/dementor/domain/chat/service/ChatRoomService.java:67-96 | Fails iff the member is unknown (checked first) or admin 5 is missing; then nothing is saved. Otherwise returns the first existing (5, member) room unchanged, or appends exactly one new admin room. |
| ChatRooms.AdminRoomIdempotent | src/main/java/com/dementor/domain/chat/service/ChatRoomService.java:82-95 | A second admin-room request for the same member adds nothing and returns the same room. |
| ChatRooms.ChatRoomService.GetOrCreateMentoringChatRoom | src/main/java/com/dementor/domain/chat/service/ChatRoomService.java:43-62 | Always appends one MENTORING_CHAT room with the given mentor and mentee, and returns it with the next id. |
| ChatRooms.ChatRoomService.CreateAdminChatRooms | src/main/java/com/dementor/domain/chat/service/ChatRoomService.java:67-96 | The room table changes as `AdminRoomFor` says. The reply is the member's view of the room, labelled "관리자". The cache is unchanged. |
| ChatRooms.ChatRoomService.GetAllMyChatRooms | src/main/java/com/dementor/domain/chat/service/ChatRoomService.java:101-109 | Returns the member's mentoring rooms followed by its admin rooms, all projected for a member viewer. The length is the sum of the two listings. |
| ChatRooms.ChatRoomService.GetAllMyAdminChatRooms | src/main/java/com/dementor/domain/chat/service/ChatRoomService.java:114-125 | Refuses iff the caller's authority is not ROLE_ADMIN. Otherwise returns the rooms it administers, projected as ADMIN. |
| ChatRooms.ChatRoomService.GetChatRoomDetail | src/main/java/com/dementor/domain/chat/service/ChatRoomService.java:129-160 | An unknown room is an error. Otherwise the access decision is `CheckAccess`; an admitted caller gets `View` with viewer type ADMIN iff its authority is ROLE_ADMIN. |
| ChatRooms.ChatRoomService.ToDtos | src/main/java/com/dementor/domain/chat/service/ChatRoomService.java:105-124 | The loop over a listing yields `ViewsAll`, and leaves the cache `CacheAfterAll` describes. |
| ChatRooms.ChatRoomService.ToDto | src/main/java/com/dementor/domain/chat/service/ChatRoomService.java:165-179 | Yields `View`, and leaves the cache `CacheAfter` describes. |
| ChatRooms.ChatRoomService.GetTargetNickname | src/main/java/com/dementor/domain/chat/service/ChatRoomService.java:182-214 | Yields `TargetNickname` and updates the cache as `CacheAfter` says. |
| Mentors.Mentor.Build | src/main/java/com/dementor/domain/mentor/entity/Mentor.java:58-66 | The builder copies its arguments. An absent approval status defaults to PENDING, and an absent modification status to NONE. |
| Mentors.Mentor.UpdateApprovalStatus | src/main/java/com/dementor/domain/mentor/entity/Mentor.java:87-89 | Only the approval status changes. |
| Mentors.Mentor.UpdateModificationStatus | src/main/java/com/dementor/domain/mentor/entity/Mentor.java:92-94 | Only the modification status changes. |
| Mentors.Mentor.UpdateAttachments | src/main/java/com/dementor/domain/mentor/entity/Mentor.java:97-99 | Only the attachment list is replaced. |
| Mentors.Mentor.Update | src/main/java/com/dementor/domain/mentor/entity/Mentor.java:102-111 | Overwrites exactly company, career, phone, e-mail, introduction and bestFor, and sets the modification status to PENDING. Id, member, job, name and approval status are unchanged. |
| MentorApplications.MentorApplication.constructor | src/main/java/com/dementor/domain/mentor/entity/MentorApplication.java:60-72 | Copies its arguments and always starts PENDING. |
| MentorApplications.MentorApplication.UpdateStatus | src/main/java/com/dementor/domain/mentor/entity/MentorApplication.java:75-77 | Sets the status to its argument, ignores the rejection reason, and changes nothing else. |
| MentorApplications.MentorApplication.ToMentor | src/main/java/com/dementor/domain/mentor/entity/MentorApplication.java:80-96 | Fails iff the application is not APPROVED. Otherwise it builds a new APPROVED mentor with the application's member, job, name, career, phone, company, introduction and bestFor. |
| MentorApplications.FreshApplicationIsNotConvertible | src/main/java/com/dementor/domain/mentor/entity/MentorApplication.java:71-83 | Converting a freshly built application always fails with the not-approved error. |
| MentorApplications.ApprovedApplicationConverts | src/main/java/com/dementor/domain/mentor/entity/MentorApplication.java:75-95 | Approving an application makes the conversion succeed, with the same member and approval status APPROVED. |
| MentorServices.ParseStatus | src/main/java/com/dementor/domain/mentor/service/MentorService.java:188-210 | `valueOf` succeeds exactly on the name of a status, and yields that status. |
| MentorServices.ParseStatusName | src/main/java/com/dementor/domain/mentor/service/MentorService.java:189 | Every status name parses back to its own status. |
| MentorServices.ValidateFileOrMarkdown | src/main/java/com/dementor/domain/mentor/service/MentorService.java:362-367 | Refuses iff the files are null or empty and the markdown is null or empty. |
| MentorServices.ApplyMentorGuard | src/main/java/com/dementor/domain/mentor/service/MentorService.java:61-82 | The checks run in order, each refusal with its code: no files and no markdown (INVALID_MENTOR_APPLICATION), no such member (MENTOR_NOT_FOUND), member already a MENTOR (MENTOR_ALREADY_EXISTS), an earlier proposal (INVALID_MENTOR_APPLICATION), an unknown job (JOB_NOT_FOUND). The first check that fails gives the error, and nothing is saved unless all pass. |
| MentorServices.SecondApplicationRefused | src/main/java/com/dementor/domain/mentor/service/MentorService.java:78-81 | Once a member's proposal is saved, every later application by that member is refused. |
| MentorServices.UpdateMentorGuard | src/main/java/com/dementor/domain/mentor/service/MentorService.java:100-130 | The checks run in the source's order, each refusal with its code: no files and no markdown (INVALID_MENTOR_APPLICATION), no such mentor (MENTOR_NOT_FOUND), a PENDING modification (INVALID_MENTOR_APPLICATION), no changes (INVALID_MENTOR_APPLICATION), an unknown job (JOB_NOT_FOUND). Nothing is saved unless all pass. |
| MentorServices.PendingEditStaysUnique | src/main/java/com/dementor/domain/mentor/service/MentorService.java:284-299 | Saving an edit proposal and marking the mentor PENDING keeps every pending proposal tracked by its mentor's status, so no mentor has two pending proposals. |
| MentorServices.ChangedFields | src/main/java/com/dementor/domain/mentor/service/MentorService.java:302-331 | The diff holds career, currentCompany, jobId or introduction iff the proposal's value differs from the mentor's, each entry being (old, new). A null company or introduction makes the conversion throw. |
| MentorServices.DiffReplaysToProposal | src/main/java/com/dementor/domain/mentor/service/MentorService.java:302-323 | Replaying the diff on the mentor's fields yields exactly the proposed fields. |
| MentorServices.EmptyDiffIffUnchanged | src/main/java/com/dementor/domain/mentor/service/MentorService.java:302-323 | The diff is empty iff the proposal repeats the mentor's fields. |
| MentorServices.Convert | src/main/java/com/dementor/domain/mentor/service/MentorService.java:302-331 | One change-request entry: it carries the proposal's id and status name and the field diff. It fails with INTERNAL_SERVER_ERROR iff the mentor is missing or a field is null. |
| MentorServices.ConvertAll | src/main/java/com/dementor/domain/mentor/service/MentorService.java:196-198 | Converts the page in order, one entry per proposal. Any single failure fails the whole page. |
| MentorServices.EditsNewestFirst | src/main/java/com/dementor/domain/mentor/service/MentorService.java:181-193 | The query returns exactly the member's proposals that match the optional status. |
| MentorServices.PageResponse | src/main/java/com/dementor/domain/mentor/service/MentorService.java:178-207 | Page `page-1` of the listing, at most `size` entries. The pagination echoes page and size, with the listing's total. |
| MentorServices.ModificationRequests | src/main/java/com/dementor/domain/mentor/service/MentorService.java:164-215 | An unknown mentor is refused first. Then page < 1 or size < 1 gives INVALID_PAGE_PARAMS, and a status that is not a constant's name gives INVALID_STATUS_PARAM. A null status means no filter. |
| MentorServices.ListedStatusesMatchFilter | src/main/java/com/dementor/domain/mentor/service/MentorService.java:188-190 | With a status filter, every listed request carries exactly that status name. |
| MentorServices.ApplyStatusGuard | src/main/java/com/dementor/domain/mentor/service/MentorService.java:233-250 | The checks run in order: an unknown mentor, an unknown apply, an apply outside the mentor's classes (access denied), an APPROVED or REJECTED apply. Each is refused; anything else may be decided. |
| MentorServices.WithStatus | src/main/java/com/dementor/domain/mentor/service/MentorService.java:253-257 | Row k gets the new status and keeps every other field. Every other row is unchanged, and the length stays the same. |
| MentorServices.FindApplyByIds | src/main/java/com/dementor/domain/mentor/service/MentorService.java:237 | Finding an apply by id depends only on the ids in the table. |
| MentorServices.DecisionIsFinal | src/main/java/com/dementor/domain/mentor/service/MentorService.java:248-254 | Once an apply is approved or rejected, every later decision on it is refused. |
| MentorServices.MentorService.ApplyMentor | src/main/java/com/dementor/domain/mentor/service/MentorService.java:61-96 | A refused application saves nothing. Otherwise exactly one proposal is appended: PENDING, with the request's fields copied. |
| MentorServices.MentorService.UpdateMentor | src/main/java/com/dementor/domain/mentor/service/MentorService.java:100-139 | A refused request changes nothing. Otherwise one PENDING edit proposal is appended and the mentor's modification status becomes PENDING. The method may write only that one field of that one mentor, so every other field of every mentor keeps its value. |
| MentorServices.MentorService.GetModificationRequests | src/main/java/com/dementor/domain/mentor/service/MentorService.java:164-215 | Answers exactly what `ModificationRequests` describes, and changes nothing. |
| MentorServices.MentorService.UpdateApplyStatus | src/main/java/com/dementor/domain/mentor/service/MentorService.java:233-260 | A refusal leaves the table unchanged. Otherwise only the found apply's status is set, and that row is returned. |
| Applies.CreateGuard | src/main/java/com/dementor/domain/apply/service/ApplyService.java:46-60 | The checks run in order: unknown class, then unknown member, then the class's own mentor (CAN_NOT_APPLY_YOUR_CLASS), then a null schedule. Each error holds iff its condition is the first to fail. |
| Applies.FindApply | src/main/java/com/dementor/domain/apply/service/ApplyService.java:79-80 | Finds the position of the row with the id, or reports that none exists. |
| Applies.DeleteGuard | src/main/java/com/dementor/domain/apply/service/ApplyService.java:79-84 | APPLY_NOT_FOUND iff there is no such apply. NOT_YOUR_APPLY iff it belongs to someone else. Otherwise the delete proceeds. |
| Applies.RemoveAt | src/main/java/com/dementor/domain/apply/service/ApplyService.java:86 | Removing row k shortens the table by one. The rows before k keep their positions, and each row after k moves up by one. |
| Applies.RemoveAtKeepsIds | src/main/java/com/dementor/domain/apply/service/ApplyService.java:86 | Deleting a row keeps the ids ascending and below the next id. |
| Applies.DeletedApplyIsGone | src/main/java/com/dementor/domain/apply/service/ApplyService.java:79-86 | With unique ids, the deleted id can no longer be found, and any other id is found after the delete iff it was found before. |
| Applies.AppliesOf | src/main/java/com/dementor/domain/apply/service/ApplyService.java:97 | The member's applications are exactly the stored rows it owns. |
| Applies.FindAppended | src/main/java/com/dementor/domain/apply/service/ApplyService.java:72 | A row saved with a fresh id is found at the end of the table. |
| Applies.CreateThenCancelRestores | src/main/java/com/dementor/domain/apply/service/ApplyService.java:62-88 | The creator may delete the apply it just made, anyone else may not, and deleting it restores the table. |
| Applies.ApplyService.CreateApply | src/main/java/com/dementor/domain/apply/service/ApplyService.java:44-73 | A refused request saves nothing. Otherwise exactly one PENDING apply is appended, with the requester, class, inquiry and schedule, and its id is returned. |
| Applies.ApplyService.DeleteApply | src/main/java/com/dementor/domain/apply/service/ApplyService.java:77-88 | A refusal leaves the table unchanged. The owner's apply is removed with `RemoveAt`, so all other rows stay in order, and its id can no longer be found. |
| Applies.ApplyService.GetApplyList | src/main/java/com/dementor/domain/apply/service/ApplyService.java:91-100 | An unknown member gives MEMBER_NOT_FOUND, and an invalid page request is refused. Otherwise the result is the page of the member's applications: at most `size` of its own rows. |
| Paging.PageSlice | src/main/java/com/dementor/domain/mentor/service/MentorService.java:178-182 | A page holds at most `size` items: the items from offset page*size, in order. |
| Paging.ItemOnPage | src/main/java/com/dementor/domain/mentor/service/MentorService.java:178-182 | Paging loses nothing: item i sits on page i / size at offset i % size. |
| MentoringClasses.StackRoundTrip | src/main/java/com/dementor/domain/mentoringclass/service/MentoringClassService.java:109-129 | A stack joined with "," splits back into the same names, when no name holds a comma and the last name is not empty. |
| MentoringClasses.Patched | src/main/java/com/dementor/domain/mentoringclass/service/MentoringClassService.java:102-117 | Each non-null request field overwrites its value and a null one keeps it. A schedule rewrites only the first slot's day and time. |
| MentoringClasses.EmptyPatchIsIdentity | src/main/java/com/dementor/domain/mentoringclass/service/MentoringClassService.java:102-117 | A request with every field null changes nothing. |
| MentoringClasses.PatchIdempotent | src/main/java/com/dementor/domain/mentoringclass/service/MentoringClassService.java:102-117 | Sending the same update twice has the effect of sending it once. |
| MentoringClasses.PatchesCompose | src/main/java/com/dementor/domain/mentoringclass/service/MentoringClassService.java:102-117 | Two updates in a row equal one update with their fields merged, the later one winning. |
| MentoringClasses.Created | src/main/java/com/dementor/domain/mentoringclass/service/MentoringClassService.java:53-81 | The created class stores one schedule per schedule request, with the request's day and time, in order. |
| MentoringClasses.MentoringClassService.CreateClass | src/main/java/com/dementor/domain/mentoringclass/service/MentoringClassService.java:49-68 | An unknown mentor is refused and no class is stored. Otherwise exactly one new class is stored under a fresh id, holding `Created(req)`. |
| MentoringClasses.MentoringClassService.FindOneClass | src/main/java/com/dementor/domain/mentoringclass/service/MentoringClassService.java:83-87 | Fails with MENTORING_CLASS_NOT_FOUND iff the class is missing. Otherwise returns its stored state. |
| MentoringClasses.MentoringClassService.DeleteClass | src/main/java/com/dementor/domain/mentoringclass/service/MentoringClassService.java:89-91 | As written, the class table is left as it was: the removal happens inside the class-wide read-only transaction (line 30) and is never flushed. |
| MentoringClasses.Deleted | src/main/java/com/dementor/domain/mentoringclass/service/MentoringClassService.java:89-91 | The intended `deleteById`: exactly the class with that id is gone, if there was one, and every other class keeps its entry. |
| MentoringClasses.DeleteIsLost | src/main/java/com/dementor/domain/mentoringclass/service/MentoringClassService.java:89-91 | For every stored class, the table deleteClass leaves differs from the intended delete, which no longer holds the class. |
| MentoringClasses.MentoringClassService.DeleteClassCommitted | src/main/java/com/dementor/domain/mentoringclass/service/MentoringClassService.java:89-91 | deleteClass in a write transaction of its own: the table becomes `Deleted` of the old table. |
| MentoringClasses.MentoringClassService.UpdateClass | src/main/java/com/dementor/domain/mentoringclass/service/MentoringClassService.java:94-138 | An unknown class or a non-owner is refused, leaving the class unchanged. An owner's class becomes `Patched`, and the reply carries the stack split back at ",". An owner's update that `UpdateFailure` refuses returns that error and leaves the class as it was. |
| MentoringClasses.UpdateFailure | src/main/java/com/dementor/domain/mentoringclass/service/MentoringClassService.java:111-136 | An owner's update succeeds iff the class has a first schedule slot and its stack is non-null after patching. A stack that stays null fails on `split` (NullStack), unless a schedule update has already failed on `get(0)` (NoSchedule). |
| MentoringClasses.CreatedClassUpdates | src/main/java/com/dementor/domain/mentoringclass/service/MentoringClassService.java:53-81 | A class created with at least one schedule never fails an owner's update. |
| Cookies.CreateJwtCookie | src/main/java/com/dementor/global/security/cookie/CookieUtil.java:27-35 | The configured name, path, HttpOnly, Secure and Max-Age, the token as the value, and SameSite Strict. |
| Cookies.DeleteJwtCookie | src/main/java/com/dementor/global/security/cookie/CookieUtil.java:38-46 | The issued cookie with value "" and Max-Age 0: it differs only in those two fields and addresses the same browser cookie. |
| Cookies.FirstNamed | src/main/java/com/dementor/global/security/cookie/CookieUtil.java:51-55 | The index of the first cookie with the name, or none when no cookie has it. |
| Cookies.GetTokenFromCookie | src/main/java/com/dementor/global/security/cookie/CookieUtil.java:49-58 | The loop returns the first matching cookie's value. It fails iff the cookies are null or no name matches. |
| Cookies.IssuedTokenIsRead | src/main/java/com/dementor/global/security/cookie/CookieUtil.java:27-58 | A request that echoes the issued cookie after cookies of other names yields the issued token. |
| EmailVerification.CreateCode | src/main/java/com/dementor/email/service/EmailService.java:24-27 | Exactly six decimal digits, whose value is the drawn number. |
| EmailVerification.DecimalValueOfPad | src/main/java/com/dementor/email/service/EmailService.java:26 | Zero padding loses nothing when the value fits the width. |
| EmailVerification.CodesAreDistinct | src/main/java/com/dementor/email/service/EmailService.java:24-27 | Two draws give the same code iff they are equal. |
| EmailVerification.KeyInjective | src/main/java/com/dementor/email/service/EmailService.java:32-57 | Distinct addresses have distinct "email:" keys. |
| EmailVerification.AfterSend | src/main/java/com/dementor/email/service/EmailService.java:21-32 | The code is stored under "email:"+address with a 300-second lifetime, replacing any earlier code. All other keys are untouched. |
| EmailVerification.Verify | src/main/java/com/dementor/email/service/EmailService.java:56-64 | True iff a code is stored for the address and equals the input. A success deletes the key, and a failure leaves the store unchanged. |
| EmailVerification.SentCodeVerifies | src/main/java/com/dementor/email/service/EmailService.java:29-60 | The code just sent verifies, and is gone afterwards. |
| EmailVerification.CodeIsSingleUse | src/main/java/com/dementor/email/service/EmailService.java:58-60 | After a successful check, no input verifies for that address. |
| EmailVerification.ResendReplacesCode | src/main/java/com/dementor/email/service/EmailService.java:32 | After a resend, the first code verifies only if both draws were equal. |
| EmailVerification.VerifyIsPerAddress | src/main/java/com/dementor/email/service/EmailService.java:57-59 | Checking one address leaves every other address's code in place. |
| EmailVerification.EmailService.SendVerificationEmail | src/main/java/com/dementor/email/service/EmailService.java:29-54 | The store becomes `AfterSend`. The code is returned unless sending fails, and it stays stored even then. |
| EmailVerification.EmailService.VerifyCode | src/main/java/com/dementor/email/service/EmailService.java:56-64 | The answer and the new store are those of `Verify`. |
| PostAttachments.FindById | src/main/java/com/dementor/domain/postattachment/service/PostAttachmentService.java:431-432 | Finds a stored row with the id, or none exists. |
| PostAttachments.FindByUid | src/main/java/com/dementor/domain/postattachment/service/PostAttachmentService.java:65-69 | Finds the first stored row with the identifier, or none exists. |
| PostAttachments.FindByUidExtended | src/main/java/com/dementor/domain/postattachment/service/PostAttachmentService.java:198-271 | Rows saved later do not change what an identifier already resolves to. |
| PostAttachments.CountOfBounds | src/main/java/com/dementor/domain/postattachment/service/PostAttachmentService.java:83-87 | The member's count is at most the number of rows, and is zero iff the member owns none. |
| PostAttachments.RemoveId | src/main/java/com/dementor/domain/postattachment/service/PostAttachmentService.java:448 | Deleting removes exactly the rows with the id. |
| PostAttachments.RemoveIdKeepsOrder | src/main/java/com/dementor/domain/postattachment/service/PostAttachmentService.java:448 | Deleting keeps the ids of the remaining rows ascending. |
| PostAttachments.IsFileOwner | src/main/java/com/dementor/domain/postattachment/service/PostAttachmentService.java:55-62 | False when either id is null or the file is missing. True only when a row with that id belongs to the user. |
| PostAttachments.OwnerIffRowIsTheirs | src/main/java/com/dementor/domain/postattachment/service/PostAttachmentService.java:55-62 | With unique ids, a user owns a file iff the row with that id is theirs. |
| PostAttachments.IsMarkdownImageOwner | src/main/java/com/dementor/domain/postattachment/service/PostAttachmentService.java:65-69 | True iff the image with the identifier exists and belongs to the user. |
| PostAttachments.DeleteGuard | src/main/java/com/dementor/domain/postattachment/service/PostAttachmentService.java:431-437 | FILE_NOT_FOUND iff no row has the id; otherwise FILE_DELETE_NO_PERMISSION for a non-owner. |
| PostAttachments.DeleteAllowedIffOwner | src/main/java/com/dementor/domain/postattachment/service/PostAttachmentService.java:431-437 | `deleteFile` lets through exactly the users `isFileOwner` accepts, and refuses every other user of an existing file with FILE_DELETE_NO_PERMISSION. |
| PostAttachments.DeletedFileHasNoOwner | src/main/java/com/dementor/domain/postattachment/service/PostAttachmentService.java:55-62 | After the delete, nobody owns the file any more. |
| PostAttachments.FileCheck | src/main/java/com/dementor/domain/postattachment/service/PostAttachmentService.java:93-155 | A file passes iff it is non-empty, within the size limit and accepted by storage. The failures, in order, are FILE_REQUIRED, FILE_SIZE_EXCEEDED and FILE_UPLOAD_ERROR. |
| PostAttachments.FirstFailureNone | src/main/java/com/dementor/domain/postattachment/service/PostAttachmentService.java:91-157 | A batch has no failure iff every file passes its checks. |
| PostAttachments.FirstFailureAt | src/main/java/com/dementor/domain/postattachment/service/PostAttachmentService.java:91-157 | The first file to fail decides the batch's error. |
| PostAttachments.UploadedRowAt | src/main/java/com/dementor/domain/postattachment/service/PostAttachmentService.java:112-129 | Row k of a batch is the k-th file's row, with id first + k. It has an identifier iff the image type is not NORMAL. |
| PostAttachments.InfosInOrder | src/main/java/com/dementor/domain/postattachment/service/PostAttachmentService.java:131-174 | The response holds one entry per row, in the rows' order. |
| PostAttachments.IssuedUrlNamesImage | src/main/java/com/dementor/domain/postattachment/service/PostAttachmentService.java:133-195 | An uploaded file gets a "/api/files/markdown-images/" URL iff its type is not NORMAL. That URL is an internal reference whose text after the last '/' is the image's identifier. |
| PostAttachments.MarkdownRefs | src/main/java/com/dementor/domain/postattachment/service/PostAttachmentService.java:160-161 | Only a present, non-empty markdown text has its references processed. |
| PostAttachments.Classify | src/main/java/com/dementor/domain/postattachment/service/PostAttachmentService.java:193-237 | A match is internal iff its URL holds the markdown-image path. Otherwise a new image is named after its alt text plus an image extension. |
| PostAttachments.ProcessRefGrows | src/main/java/com/dementor/domain/postattachment/service/PostAttachmentService.java:193-277 | One match either appends one row with the next id and lists it, lists one stored image not listed before, or changes nothing. |
| PostAttachments.ProcessRefsGrows | src/main/java/com/dementor/domain/postattachment/service/PostAttachmentService.java:181-281 | The pass only appends to the repository, one id per new row, and lists only stored images. |
| PostAttachments.ProcessRefsKeepsOrder | src/main/java/com/dementor/domain/postattachment/service/PostAttachmentService.java:200-209 | The pass keeps ids ascending below the next id. It never lists an image twice. |
| PostAttachments.InternalRefIsListed | src/main/java/com/dementor/domain/postattachment/service/PostAttachmentService.java:193-205 | Every internal reference whose identifier is stored puts that image in the result list. |
| PostAttachments.IssuedUrlResolves | src/main/java/com/dementor/domain/postattachment/service/PostAttachmentService.java:169-205 | A markdown text that cites an image by its issued URL lists exactly that image and saves nothing. |
| PostAttachments.UploadedRowsOrdered | src/main/java/com/dementor/domain/postattachment/service/PostAttachmentService.java:89-157 | A batch's rows, saved one after another with fresh ids, keep the repository's ids ascending below the next id. |
| PostAttachments.MarkdownPassGrows | src/main/java/com/dementor/domain/postattachment/service/PostAttachmentService.java:160-177 | The markdown pass only appends, spends one id per new row, and keeps the ids ascending. |
| PostAttachments.UploadOutcomeShape | src/main/java/com/dementor/domain/postattachment/service/PostAttachmentService.java:89-177 | A successful upload only appends: first the files' rows, then the markdown rows. The next id grows by the number of rows added, and the ids stay ascending. The response lists the files' entries first, in order. |
| PostAttachments.DataUriParts | src/main/java/com/dementor/domain/postattachment/service/PostAttachmentService.java:299-306 | Splitting a data URI header yields an "image/" media type and a payload. An index `substring` refuses becomes FILE_UPLOAD_ERROR. |
| PostAttachments.MediaType | src/main/java/com/dementor/domain/postattachment/service/PostAttachmentService.java:305 | The slice from "image/" to ";base64" starts with "image/". A header whose ";base64" comes first is refused. |
| PostAttachments.DataUriRoundTrip | src/main/java/com/dementor/domain/postattachment/service/PostAttachmentService.java:299-306 | For a URI written as "data:"+mime+";base64,"+payload, the split gives back the media type and the payload (section 3 of RFC 2397). |
| PostAttachments.MimeExtension | src/main/java/com/dementor/domain/postattachment/service/PostAttachmentService.java:309-312 | image/png gives .png, image/gif gives .gif, image/svg+xml gives .svg, and anything else gives .jpg. |
| PostAttachments.DetermineImageExtension | src/main/java/com/dementor/domain/postattachment/service/PostAttachmentService.java:284-291 | Always .gif, .png, .jpg or .webp. The lower-cased URL is tested for ".gif", ".png", ".jpg"/".jpeg" and ".webp" in that priority, with ".jpg" as the default. |
| PostAttachments.SuffixLookup | src/main/java/com/dementor/domain/postattachment/service/PostAttachmentService.java:769-786 | Gives the type of the first table row whose suffix ends the name, or none when no row matches. |
| PostAttachments.ContentTypeByFilename | src/main/java/com/dementor/domain/postattachment/service/PostAttachmentService.java:765-790 | Null gives application/octet-stream. Otherwise the lower-cased name takes the first matching suffix row's type, or application/octet-stream when none matches. |
| PostAttachments.ContentTypeIgnoresCase | src/main/java/com/dementor/domain/postattachment/service/PostAttachmentService.java:768 | A name and its lower-cased form get the same type. |
| PostAttachments.SuffixLookupAppend | src/main/java/com/dementor/domain/postattachment/service/PostAttachmentService.java:769-786 | The table is read in branch order: a name matched by an earlier part of the table never reaches a later part. |
| PostAttachments.ImageTypeAt | src/main/java/com/dementor/domain/postattachment/service/PostAttachmentService.java:769-786 | A lower-case name that ends with image row k's suffix and with no earlier row's suffix gets row k's type. |
| PostAttachments.ExtensionLeadsBackToMime | src/main/java/com/dementor/domain/postattachment/service/PostAttachmentService.java:765-772 | The extension chosen for png, gif or svg leads back to the same MIME type. Every other type leads to image/jpeg. |
| PostAttachments.ExternalImageContentType | src/main/java/com/dementor/domain/postattachment/service/PostAttachmentService.java:237-250 | An external image gets an image/* content type, except a ".webp" image, which gets application/octet-stream because the table has no row for it. |
| PostAttachments.FormatName | src/main/java/com/dementor/domain/postattachment/service/PostAttachmentService.java:757-762 | Always png, gif, bmp or jpeg, checked in that priority. png iff the type mentions "png". gif iff it mentions "gif" but not "png". bmp iff it mentions "bmp" but neither of the others. jpeg iff it mentions none of the three. |
| PostAttachments.Unquoted | src/main/java/com/dementor/domain/postattachment/service/PostAttachmentService.java:695-697 | Removes one enclosing pair of double quotes. A lone '"' fails, as `substring(1, 0)` does. |
| PostAttachments.ExtractImageFromJson | src/main/java/com/dementor/domain/postattachment/service/PostAttachmentService.java:689-711 | A result always starts with "data:image/". It is the trimmed text, or its inside once one pair of quotes is removed. A lone '"' yields null. |
| PostAttachments.DataUriExtracted | src/main/java/com/dementor/domain/postattachment/service/PostAttachmentService.java:692-705 | A data URI comes back from a quoted JSON string, and from the bare text when it has no trailing blank. |
| PostAttachments.PostAttachmentService.ProcessMarkdownImages | src/main/java/com/dementor/domain/postattachment/service/PostAttachmentService.java:181-281 | The loop over the matches leaves the list and repository `ProcessRefs` describes. The ids stay ascending, and the list has no repeats. |
| PostAttachments.PostAttachmentService.ProcessMatch | src/main/java/com/dementor/domain/postattachment/service/PostAttachmentService.java:189-277 | One pass of the match loop, as `ProcessRef` says. |
| PostAttachments.PostAttachmentService.UploadFiles | src/main/java/com/dementor/domain/postattachment/service/PostAttachmentService.java:73-178 | Refused in order for an unknown member, then for count + files > limit before any file is examined, then with the first failing file's error. A refusal leaves the repository unchanged. Success gives `UploadOutcome`. |
| PostAttachments.PostAttachmentService.UploadAccepted | src/main/java/com/dementor/domain/postattachment/service/PostAttachmentService.java:89-177 | The file loop, then the markdown pass. It fails exactly as the file batch does. |
| PostAttachments.PostAttachmentService.CompleteUpload | src/main/java/com/dementor/domain/postattachment/service/PostAttachmentService.java:159-177 | After the file loop, the markdown images' entries follow the files' entries. |
| PostAttachments.PostAttachmentService.ProcessMarkdownText | src/main/java/com/dementor/domain/postattachment/service/PostAttachmentService.java:159-161 | A present, non-empty text has its references processed; otherwise nothing changes. |
| PostAttachments.PostAttachmentService.StoreFiles | src/main/java/com/dementor/domain/postattachment/service/PostAttachmentService.java:91-157 | Each file is validated and appended in order. On success the rows are `UploadedRows` with consecutive ids. A failure rolls back to the old repository with the first failure's error. |
| PostAttachments.PostAttachmentService.ProcessMarkdownOnly | src/main/java/com/dementor/domain/postattachment/service/PostAttachmentService.java:381-425 | An absent or empty text gives an empty list. Then an unknown member is refused. Found images are checked against the per-user limit, counting the rows just saved; over the limit, everything is rolled back. |
| PostAttachments.PostAttachmentService.DeleteFile | src/main/java/com/dementor/domain/postattachment/service/PostAttachmentService.java:429-456 | `DeleteGuard` refusals leave the repository unchanged. A failed Firebase delete gives FILE_UPLOAD_ERROR. Otherwise exactly the row with the id is removed. |
| PostAttachments.PostAttachmentService.UploadPastedImage | src/main/java/com/dementor/domain/postattachment/service/PostAttachmentService.java:794-856 | An unknown member, then an oversized image, is refused. A null MIME type or a storage failure gives FILE_UPLOAD_ERROR. Otherwise one self-introduction markdown row named "pasted_image"+extension is appended and described. |
| PostAttachmentControllers.FailureResponse | src/main/java/com/dementor/domain/postattachment/controller/PostAttachmentController.java:108-117 | IllegalStateException maps to 400, PostAttachmentException to its code's status, and anything else to 500 with the server-error prefix. None of them succeeds. |
| PostAttachmentControllers.UploadGate | src/main/java/com/dementor/domain/postattachment/controller/PostAttachmentController.java:54-88 | A missing or empty introduction gives 400. An apply proposal admits only its owner, and refuses anyone else with 403. Failing that, an edit proposal does the same. Neither gives 404. The upload proceeds iff the text is present and the caller owns the proposal. |
| PostAttachmentControllers.ApplyProposalShadowsEdit | src/main/java/com/dementor/domain/postattachment/controller/PostAttachmentController.java:63-72 | When an apply proposal has the id, edit proposals are never consulted. |
| PostAttachmentControllers.UploadMarkdownContent | src/main/java/com/dementor/domain/postattachment/controller/PostAttachmentController.java:44-118 | Succeeds iff the gate passes and the service returns files. Success is 201 carrying the files. A gate refusal is returned as is, and a service failure maps through `FailureResponse`. |
| PostAttachmentControllers.InlineContentDisposition | src/main/java/com/dementor/domain/postattachment/controller/PostAttachmentController.java:208-217 | Exactly "inline" iff the name is null or empty. Otherwise "inline; filename*=UTF-8''" + the encoded name, which never contains '+' (section 4.3 of RFC 6266). |
| PostAttachmentControllers.RestorePlusInvertsRewrite | src/main/java/com/dementor/domain/postattachment/controller/PostAttachmentController.java:211-213 | Rewriting '+' as "%20" loses nothing on URLEncoder output, which never contains "%20". |
| PostAttachmentControllers.InlineFilenameRoundTrip | src/main/java/com/dementor/domain/postattachment/controller/PostAttachmentController.java:208-217 | The header of a named file gives back the encoder's output. |

## Left out

- Chat messages: the message store, cursor pagination and the STOMP/WebSocket transport are outside these services. A room's newest message is an input map.
- Concurrency: the `ConcurrentHashMap` cache, transaction isolation and simultaneous first-contact room creation are modelled sequentially.
- Time: the Asia/Seoul conversion in `toDto` and the `createdAt` timestamps are opaque numbers. The newest-first sort order of the edit-proposal listing is taken as reverse save order.
- Transactions: an exception after writes is modelled as an explicit restore of the repository. Ids handed out before the rollback are not reused.
- External calls are inputs to the operations:
  - Firebase Storage uploads and deletes (a URL or a failure flag);
  - UUID generation, `Random.nextInt`, `URLEncoder`;
  - SMTP sending (a failure flag);
  - HTTP downloads, ImageIO validation and image resizing;
  - Base64 decoding, which is not modelled.
- The markdown regex `!\[(.*?)\]\((.*?)\)` is not modelled. The operations take its matches as a list of (alt text, URL) pairs.
- Redis time-to-live expiry is not modelled; the 300-second TTL is only recorded with the code.
- `PostAttachmentService.downloadFile`, `downloadMarkdownImage` (except the controller's header), `downloadImageFromUrl`, `validateImage` and `resizeImage`: I/O and image processing.
- The controller's `uploadMarkdownContent` calls a service method of the same name that `PostAttachmentService.java` does not define. Its outcome is an input of the model.
- `uploadFilesApply` and `uploadFilesEdit`, which `MentorService` calls, are not defined in `PostAttachmentService.java` either.
- `PostAttachmentControllers.UploadMarkdownContent`: the status of a `PostAttachmentException` comes from `PostAttachmentErrorCode`, which is not part of this model. So only "success implies 201" is stated, not its converse.
- `MentorService.getApplyByMentor` is a paged query over the mentor's classes. `ApplyService.getApplySchedulesByClassId` is a date-range query. Neither is modelled.
- `MentoringClassService.findAllClass`: the job filter and paging over all classes are not modelled.
- `MentorServices.MentorService.ApplyMentor` and `MentorServices.MentorService.UpdateMentor`: the file-upload step after saving the proposal is not modelled.
- `MentorServices.UpdateMentorGuard`: `hasChanges` comes from the request type, which is not part of this model, so it is an input flag.
- The value sets of `MentorEditProposalStatus`, `MentorApplyProposalStatus` and `ApplyStatus` are not part of this model. They are taken to be PENDING, APPROVED and REJECTED.
- `PostAttachments.UploadedRow` stores the part's original name unchanged. Spring's `StringUtils.cleanPath`, which `uploadFiles` applies to it, is not part of this model. So a name containing `\`, `./` or `../` segments is stored as given, whereas the source stores it normalised.
- `Text.ToLower` lower-cases ASCII letters only; Java's locale-dependent full Unicode lower-casing is not modelled.
- The `Mentor` builder's JPA relations (member, job) are held as ids.
- `Mentors.Mentor.Build` starts the attachment and class lists empty; the Java builder leaves them null, and no modelled operation reads them before `updateAttachments` sets them.

## Findings

| source | as written | input that shows it | evidently intended | confidence | as-written member | corrected member |
|---|---|---|---|---|---|---|
| src/main/java/com/dementor/domain/mentoringclass/service/MentoringClassService.java:89-91 | `deleteClass` has no `@Transactional` of its own, so it runs in the class-wide `@Transactional(readOnly = true)` of line 30. Spring gives a read-only transaction Hibernate's MANUAL flush mode, so the removal `deleteById` schedules is never written. | Any stored class id: `DeleteIsLost` shows the table stays different from the intended one. | The class is removed, as `updateClass` (line 93) and `createClass` (line 48) get write transactions of their own. | not executed; follows from the framework's documented read-only handling | MentoringClasses.MentoringClassService.DeleteClass | MentoringClasses.MentoringClassService.DeleteClassCommitted |
