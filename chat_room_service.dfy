/**
 * The chat-room registry of ChatRoomService: the room table, the access guard of
 * getChatRoomDetail, the viewer-relative counterparty label and the nickname cache
 * that fills up lazily and is never invalidated.
 */
module ChatRooms {
  import opened Wrappers
  import opened Members

  /** Label used when the counterparty cannot be resolved. */
  const UnknownLabel: string := "알 수 없음"
  /** Label a member sees for the administrator side of an admin room. */
  const AdminLabel: string := "관리자"
  /** The one administrator account every admin room is opened with. */
  const FixedAdminId: int := 5

  const RoleAdmin: string := "ROLE_ADMIN"
  const RoleMentor: string := "ROLE_MENTOR"
  const RoleMentee: string := "ROLE_MENTEE"

  datatype RoomType = MentoringChat | AdminChat

  /** `ViewerType.MEMBER` and `ViewerType.ADMIN` */
  datatype ViewerType = AsMember | AsAdmin

  /** The participants a room carries; which two ids are set depends on the room type. */
  datatype Parties = MentoringPair(mentorId: int, menteeId: int) | AdminPair(adminId: int, memberId: int)

  datatype ChatRoom = ChatRoom(chatRoomId: nat, parties: Parties) {
    function Kind(): RoomType {
      if parties.MentoringPair? then MentoringChat else AdminChat
    }
  }

  /** The newest message of a room (the top-1 query by `sentAt`); times are opaque numbers. */
  datatype ChatMessage = ChatMessage(content: string, sentAt: int)

  /** `ChatRoomResponseDto` */
  datatype RoomView = RoomView(
    chatRoomId: nat,
    roomType: RoomType,
    lastMessage: Option<string>,
    lastMessageAt: Option<int>,
    targetNickname: string)

  /** The exceptions the service throws, one constructor per distinct message. */
  datatype ChatError =
    | MemberNotFound      // IllegalArgumentException, unknown member
    | AdminNotFound       // IllegalArgumentException, the fixed administrator is missing
    | RoomNotFound        // IllegalArgumentException, unknown room id
    | AdminOnly           // SecurityException, caller is not ROLE_ADMIN
    | MentoringRolesOnly  // SecurityException, neither ROLE_MENTOR nor ROLE_MENTEE
    | NotParticipant      // SecurityException, caller is not the room's party

  /** The authenticated caller: its id and its first granted authority. */
  datatype Viewer = Viewer(id: int, authority: string)

  function ViewerTypeOf(authority: string): ViewerType {
    if authority == RoleAdmin then AsAdmin else AsMember
  }

  // ------------------------------------------------------------------
  // Access guard of getChatRoomDetail
  // ------------------------------------------------------------------

  function CheckAccess(room: ChatRoom, viewer: Viewer): (r: Result<(), ChatError>)
    ensures room.parties.MentoringPair? ==>
      (r.Ok? <==> (viewer.authority == RoleMentor || viewer.authority == RoleMentee) &&
                  (viewer.id == room.parties.mentorId || viewer.id == room.parties.menteeId))
    ensures room.parties.AdminPair? && viewer.authority == RoleAdmin ==>
      (r.Ok? <==> viewer.id == room.parties.adminId)
    ensures room.parties.AdminPair? && viewer.authority != RoleAdmin ==>
      (r.Ok? <==> viewer.id == room.parties.memberId)
    ensures r == Err(MentoringRolesOnly) <==>
      room.parties.MentoringPair? && viewer.authority != RoleMentor && viewer.authority != RoleMentee
    ensures r.Err? ==> r.error == MentoringRolesOnly || r.error == NotParticipant
  {
    match room.parties
    case MentoringPair(mentorId, menteeId) =>
      if viewer.authority != RoleMentor && viewer.authority != RoleMentee then Err(MentoringRolesOnly)
      else if viewer.id != mentorId && viewer.id != menteeId then Err(NotParticipant)
      else Ok(())
    case AdminPair(adminId, memberId) =>
      if viewer.authority == RoleAdmin then
        if viewer.id != adminId then Err(NotParticipant) else Ok(())
      else
        if viewer.id != memberId then Err(NotParticipant) else Ok(())
  }

  // ------------------------------------------------------------------
  // Counterparty label and nickname cache
  // ------------------------------------------------------------------

  /** `memberRepository.findById(id).map(Member::getNickname).orElse("알 수 없음")` */
  function NicknameOf(members: map<int, Member>, id: int): string {
    if id in members then members[id].nickname else UnknownLabel
  }

  /** The value `computeIfAbsent` returns: the cached entry, else a fresh lookup. */
  function CachedNickname(cache: map<int, string>, members: map<int, Member>, id: int): string {
    if id in cache then cache[id] else NicknameOf(members, id)
  }

  /** The cache after `computeIfAbsent(id, ...)`: inserts on a miss, never overwrites. */
  function CacheWith(cache: map<int, string>, members: map<int, Member>, id: int): (c: map<int, string>)
    ensures c.Keys == cache.Keys + {id}
    ensures forall k :: k in cache ==> c[k] == cache[k]
    ensures c[id] == CachedNickname(cache, members, id)
  {
    if id in cache then cache else cache[id := NicknameOf(members, id)]
  }

  /** In a mentoring room the other party is the mentee for the mentor and the mentor for everyone else. */
  function Counterparty(parties: Parties, viewerId: int): int
    requires parties.MentoringPair?
  {
    if viewerId == parties.mentorId then parties.menteeId else parties.mentorId
  }

  /** The label `getTargetNickname` returns for `room` as seen by the viewer. */
  function TargetNickname(cache: map<int, string>, members: map<int, Member>, room: ChatRoom,
                          viewerId: int, viewerType: ViewerType): (shown: string)
    ensures room.parties.MentoringPair? ==>
      shown == CachedNickname(cache, members, Counterparty(room.parties, viewerId))
    ensures room.parties.AdminPair? && viewerType == AsAdmin && viewerId == room.parties.adminId ==>
      shown == NicknameOf(members, room.parties.memberId)
    ensures room.parties.AdminPair? && viewerType == AsMember && viewerId == room.parties.memberId ==>
      shown == AdminLabel
    ensures (room.parties.AdminPair? &&
             !(viewerType == AsAdmin && viewerId == room.parties.adminId) &&
             !(viewerType == AsMember && viewerId == room.parties.memberId)) ==>
      shown == UnknownLabel
  {
    match room.parties
    case MentoringPair(_, _) => CachedNickname(cache, members, Counterparty(room.parties, viewerId))
    case AdminPair(adminId, memberId) =>
      if viewerType == AsAdmin && viewerId == adminId then NicknameOf(members, memberId)
      else if viewerType == AsMember && viewerId == memberId then AdminLabel
      else UnknownLabel
  }

  /** The cache after resolving the label of `room`; admin rooms never touch it. */
  function CacheAfter(cache: map<int, string>, members: map<int, Member>, room: ChatRoom, viewerId: int)
    : map<int, string>
  {
    match room.parties
    case MentoringPair(_, _) => CacheWith(cache, members, Counterparty(room.parties, viewerId))
    case AdminPair(_, _) => cache
  }

  /** A cached entry, the fallback label included, wins over whatever the member table now says. */
  lemma CachedEntryIsFinal(cache: map<int, string>, members: map<int, Member>, members': map<int, Member>,
                           room: ChatRoom, viewerId: int, viewerType: ViewerType)
    requires room.parties.MentoringPair? && Counterparty(room.parties, viewerId) in cache
    ensures TargetNickname(cache, members', room, viewerId, viewerType) == cache[Counterparty(room.parties, viewerId)]
    ensures CacheAfter(cache, members', room, viewerId) == cache
  {
  }

  /** Resolving a label a second time gives the same answer and leaves the cache as it is. */
  lemma ResolveTwice(cache: map<int, string>, members: map<int, Member>, room: ChatRoom,
                     viewerId: int, viewerType: ViewerType)
    ensures var c := CacheAfter(cache, members, room, viewerId);
      TargetNickname(c, members, room, viewerId, viewerType) == TargetNickname(cache, members, room, viewerId, viewerType) &&
      CacheAfter(c, members, room, viewerId) == c
  {
  }

  /** `toDto`: the room as seen by the viewer, with the newest message if there is one. */
  function View(cache: map<int, string>, members: map<int, Member>, messages: map<nat, ChatMessage>,
                room: ChatRoom, viewerId: int, viewerType: ViewerType): (v: RoomView)
    ensures v.chatRoomId == room.chatRoomId && v.roomType == room.Kind()
    ensures v.lastMessage.None? <==> room.chatRoomId !in messages
    ensures v.lastMessageAt.None? <==> room.chatRoomId !in messages
    ensures v.targetNickname == TargetNickname(cache, members, room, viewerId, viewerType)
  {
    var last := if room.chatRoomId in messages then Some(messages[room.chatRoomId]) else None;
    RoomView(room.chatRoomId, room.Kind(),
             if last.Some? then Some(last.value.content) else None,
             if last.Some? then Some(last.value.sentAt) else None,
             TargetNickname(cache, members, room, viewerId, viewerType))
  }

  /** The cache after projecting `rooms` one after the other. */
  function CacheAfterAll(cache: map<int, string>, members: map<int, Member>, rooms: seq<ChatRoom>, viewerId: int)
    : map<int, string>
  {
    if rooms == [] then cache
    else CacheAfter(CacheAfterAll(cache, members, rooms[..|rooms| - 1], viewerId), members, rooms[|rooms| - 1], viewerId)
  }

  /** The projections of `rooms` in order, each one reading the cache its predecessors left. */
  function ViewsAll(cache: map<int, string>, members: map<int, Member>, messages: map<nat, ChatMessage>,
                    rooms: seq<ChatRoom>, viewerId: int, viewerType: ViewerType): (vs: seq<RoomView>)
    ensures |vs| == |rooms|
    ensures forall i :: 0 <= i < |rooms| ==>
      vs[i].chatRoomId == rooms[i].chatRoomId && vs[i].roomType == rooms[i].Kind() &&
      (vs[i].lastMessage.None? <==> rooms[i].chatRoomId !in messages)
  {
    if rooms == [] then []
    else
      var front := rooms[..|rooms| - 1];
      ViewsAll(cache, members, messages, front, viewerId, viewerType) +
      [View(CacheAfterAll(cache, members, front, viewerId), members, messages, rooms[|rooms| - 1], viewerId, viewerType)]
  }

  /** Projecting a list of rooms keeps every entry the cache already had. */
  lemma {:induction false} CacheAfterAllKeeps(cache: map<int, string>, members: map<int, Member>,
                                              rooms: seq<ChatRoom>, viewerId: int)
    ensures var c := CacheAfterAll(cache, members, rooms, viewerId);
      cache.Keys <= c.Keys && forall k :: k in cache ==> c[k] == cache[k]
  {
    if rooms != [] {
      CacheAfterAllKeeps(cache, members, rooms[..|rooms| - 1], viewerId);
    }
  }

  /**
   * Every mentoring-room label in a listing is the final cache entry for that counterparty:
   * the cache only inserts on a miss, so the label a row got is the one the cache keeps.
   */
  lemma {:induction false} LabelsMatchFinalCache(cache: map<int, string>, members: map<int, Member>,
                                                 messages: map<nat, ChatMessage>, rooms: seq<ChatRoom>,
                                                 viewerId: int, viewerType: ViewerType, i: int)
    requires 0 <= i < |rooms| && rooms[i].parties.MentoringPair?
    ensures var t := Counterparty(rooms[i].parties, viewerId);
      var c := CacheAfterAll(cache, members, rooms, viewerId);
      t in c && ViewsAll(cache, members, messages, rooms, viewerId, viewerType)[i].targetNickname == c[t]
  {
    var front := rooms[..|rooms| - 1];
    var t := Counterparty(rooms[i].parties, viewerId);
    var before := CacheAfterAll(cache, members, front, viewerId);
    if i < |rooms| - 1 {
      assert rooms[i] == front[i];
      LabelsMatchFinalCache(cache, members, messages, front, viewerId, viewerType, i);
      assert ViewsAll(cache, members, messages, rooms, viewerId, viewerType)[i]
          == ViewsAll(cache, members, messages, front, viewerId, viewerType)[i];
    }
  }

  /** Admin rooms never touch the cache. */
  lemma {:induction false} AdminRoomsLeaveCache(cache: map<int, string>, members: map<int, Member>,
                                                rooms: seq<ChatRoom>, viewerId: int)
    requires forall i :: 0 <= i < |rooms| ==> rooms[i].parties.AdminPair?
    ensures CacheAfterAll(cache, members, rooms, viewerId) == cache
  {
    if rooms != [] {
      AdminRoomsLeaveCache(cache, members, rooms[..|rooms| - 1], viewerId);
    }
  }

  /** The administrator of a list of its own rooms sees each member's nickname, with the fallback label. */
  lemma {:induction false} AdminSeesMemberNicknames(cache: map<int, string>, members: map<int, Member>,
                                                    messages: map<nat, ChatMessage>, rooms: seq<ChatRoom>,
                                                    adminId: int, i: int)
    requires forall j :: 0 <= j < |rooms| ==> rooms[j].parties.AdminPair? && rooms[j].parties.adminId == adminId
    requires 0 <= i < |rooms|
    ensures ViewsAll(cache, members, messages, rooms, adminId, AsAdmin)[i].targetNickname
         == NicknameOf(members, rooms[i].parties.memberId)
  {
    var front := rooms[..|rooms| - 1];
    if i < |rooms| - 1 {
      assert rooms[i] == front[i];
      AdminSeesMemberNicknames(cache, members, messages, front, adminId, i);
    }
  }

  // ------------------------------------------------------------------
  // The room table and its queries
  // ------------------------------------------------------------------

  /** Room ids are assigned 1, 2, 3, ... in insertion order. */
  ghost predicate IdsAreSequential(rooms: seq<ChatRoom>) {
    forall i :: 0 <= i < |rooms| ==> rooms[i].chatRoomId == i + 1
  }

  /** `chatRoomRepository.save` of a new room: it gets the next id. */
  function AddRoom(rooms: seq<ChatRoom>, parties: Parties): (r: seq<ChatRoom>)
    ensures |r| == |rooms| + 1 && r[..|rooms|] == rooms && r[|rooms|].parties == parties
    ensures IdsAreSequential(rooms) ==> IdsAreSequential(r)
  {
    rooms + [ChatRoom(|rooms| + 1, parties)]
  }

  /** `chatRoomRepository.findById` */
  function FindRoom(rooms: seq<ChatRoom>, id: int): (r: Option<ChatRoom>)
    requires IdsAreSequential(rooms)
    ensures r.Some? ==> r.value in rooms && r.value.chatRoomId == id
    ensures r.None? ==> forall room :: room in rooms ==> room.chatRoomId != id
  {
    if 1 <= id <= |rooms| then Some(rooms[id - 1]) else None
  }

  /** The rows of `rooms` that satisfy `keep`, in table order. */
  function Filter(rooms: seq<ChatRoom>, keep: ChatRoom -> bool): (r: seq<ChatRoom>)
    ensures |r| <= |rooms|
    ensures forall room :: room in r <==> room in rooms && keep(room)
  {
    if rooms == [] then []
    else
      var last := rooms[|rooms| - 1];
      Filter(rooms[..|rooms| - 1], keep) + (if keep(last) then [last] else [])
  }

  predicate InMentoringRoom(room: ChatRoom, memberId: int) {
    room.parties.MentoringPair? && (room.parties.mentorId == memberId || room.parties.menteeId == memberId)
  }

  predicate IsAdminRoomOf(room: ChatRoom, adminId: int, memberId: int) {
    room.parties == AdminPair(adminId, memberId)
  }

  /** `findMentoringChatRoomsByMemberId` */
  function MentoringRoomsOf(rooms: seq<ChatRoom>, memberId: int): seq<ChatRoom> {
    Filter(rooms, room => InMentoringRoom(room, memberId))
  }

  /** `findAdminChatRoomsByMemberId` */
  function AdminRoomsOfMember(rooms: seq<ChatRoom>, memberId: int): seq<ChatRoom> {
    Filter(rooms, (room: ChatRoom) => room.parties.AdminPair? && room.parties.memberId == memberId)
  }

  /** `findAdminChatRoomsByAdminId` */
  function AdminRoomsOfAdmin(rooms: seq<ChatRoom>, adminId: int): seq<ChatRoom> {
    Filter(rooms, (room: ChatRoom) => room.parties.AdminPair? && room.parties.adminId == adminId)
  }

  /** `findAdminChatRoomByAdminIdAndMemberId` */
  function AdminRoomsOfPair(rooms: seq<ChatRoom>, adminId: int, memberId: int): seq<ChatRoom> {
    Filter(rooms, room => IsAdminRoomOf(room, adminId, memberId))
  }

  /** Appending one row adds it at the end of every listing it belongs to. */
  lemma FilterAdd(rooms: seq<ChatRoom>, room: ChatRoom, keep: ChatRoom -> bool)
    ensures Filter(rooms + [room], keep) == Filter(rooms, keep) + (if keep(room) then [room] else [])
  {
    assert (rooms + [room])[..|rooms|] == rooms;
  }

  /**
   * getOrCreateMentoringChatRoom performs no lookup: opening the same pair twice leaves
   * two more rooms listed for the mentor, with different ids.
   */
  lemma TwoMentoringRoomsForOnePair(rooms: seq<ChatRoom>, mentorId: int, menteeId: int)
    ensures var once := AddRoom(rooms, MentoringPair(mentorId, menteeId));
      var twice := AddRoom(once, MentoringPair(mentorId, menteeId));
      MentoringRoomsOf(twice, mentorId) == MentoringRoomsOf(rooms, mentorId) + [once[|rooms|], twice[|once|]] &&
      once[|rooms|].chatRoomId != twice[|once|].chatRoomId
  {
    var once := AddRoom(rooms, MentoringPair(mentorId, menteeId));
    var twice := AddRoom(once, MentoringPair(mentorId, menteeId));
    var keep := room => InMentoringRoom(room, mentorId);
    assert once == rooms + [once[|rooms|]];
    assert twice == once + [twice[|once|]];
    FilterAdd(rooms, once[|rooms|], keep);
    FilterAdd(once, twice[|once|], keep);
  }

  /**
   * createAdminChatRooms on values: the member and the fixed administrator must exist;
   * the first existing room of the pair is reused, else exactly one admin room is added.
   */
  function AdminRoomFor(rooms: seq<ChatRoom>, members: map<int, Member>, admins: set<int>, memberId: int)
    : (r: Result<(seq<ChatRoom>, ChatRoom), ChatError>)
    ensures r.Err? <==> memberId !in members || FixedAdminId !in admins
    ensures r.Err? ==> r.error == (if memberId !in members then MemberNotFound else AdminNotFound)
    ensures r.Ok? ==> IsAdminRoomOf(r.value.1, FixedAdminId, memberId) && r.value.1 in r.value.0
    ensures r.Ok? && AdminRoomsOfPair(rooms, FixedAdminId, memberId) != [] ==>
      r.value == (rooms, AdminRoomsOfPair(rooms, FixedAdminId, memberId)[0])
    ensures r.Ok? && AdminRoomsOfPair(rooms, FixedAdminId, memberId) == [] ==>
      r.value.0 == AddRoom(rooms, AdminPair(FixedAdminId, memberId)) && r.value.1 == r.value.0[|rooms|]
  {
    if memberId !in members then Err(MemberNotFound)
    else if FixedAdminId !in admins then Err(AdminNotFound)
    else
      var existing := AdminRoomsOfPair(rooms, FixedAdminId, memberId);
      if |existing| > 0 then
        assert existing[0] in existing;
        Ok((rooms, existing[0]))
      else
        var added := AddRoom(rooms, AdminPair(FixedAdminId, memberId));
        Ok((added, added[|rooms|]))
  }

  /** A second createAdminChatRooms for the same member adds nothing and returns the same room. */
  lemma AdminRoomIdempotent(rooms: seq<ChatRoom>, members: map<int, Member>, admins: set<int>, memberId: int)
    requires AdminRoomFor(rooms, members, admins, memberId).Ok?
    ensures var (after, room) := AdminRoomFor(rooms, members, admins, memberId).value;
      AdminRoomFor(after, members, admins, memberId) == Ok((after, room))
  {
    var (after, room) := AdminRoomFor(rooms, members, admins, memberId).value;
    if AdminRoomsOfPair(rooms, FixedAdminId, memberId) == [] {
      assert after == rooms + [room];
      FilterAdd(rooms, room, r => IsAdminRoomOf(r, FixedAdminId, memberId));
      assert AdminRoomsOfPair(after, FixedAdminId, memberId) == [room];
    }
  }

  // ------------------------------------------------------------------
  // The service
  // ------------------------------------------------------------------

  class ChatRoomService {
    /** chatRoomRepository */
    var rooms: seq<ChatRoom>
    /** chatMessageRepository, read through its top-1 query: newest message per room id */
    var messages: map<nat, ChatMessage>
    /** memberRepository */
    var members: map<int, Member>
    /** adminRepository */
    var admins: set<int>
    /** nicknameCache: member id to nickname, filled on a miss and never invalidated */
    var nicknameCache: map<int, string>

    ghost predicate Valid()
      reads this
    {
      IdsAreSequential(rooms)
    }

    constructor (messages: map<nat, ChatMessage>, members: map<int, Member>, admins: set<int>)
      ensures Valid() && rooms == [] && nicknameCache == map[]
      ensures this.messages == messages && this.members == members && this.admins == admins
    {
      this.rooms := [];
      this.messages := messages;
      this.members := members;
      this.admins := admins;
      this.nicknameCache := map[];
    }

    /** Always saves a new mentoring room; the lookup for an existing one is commented out in the source. */
    method GetOrCreateMentoringChatRoom(mentorId: int, menteeId: int) returns (room: ChatRoom)
      requires Valid()
      modifies this`rooms
      ensures Valid()
      ensures rooms == AddRoom(old(rooms), MentoringPair(mentorId, menteeId)) && room == rooms[|old(rooms)|]
      ensures room.Kind() == MentoringChat && room.chatRoomId == |old(rooms)| + 1
    {
      rooms := AddRoom(rooms, MentoringPair(mentorId, menteeId));
      room := rooms[|rooms| - 1];
    }

    method CreateAdminChatRooms(memberId: int) returns (r: Result<RoomView, ChatError>)
      requires Valid()
      modifies this`rooms, this`nicknameCache
      ensures Valid() && nicknameCache == old(nicknameCache)
      ensures match AdminRoomFor(old(rooms), members, admins, memberId)
        case Err(e) => r == Err(e) && rooms == old(rooms)
        case Ok((after, room)) =>
          rooms == after && r == Ok(View(nicknameCache, members, messages, room, memberId, AsMember))
      ensures r.Ok? ==> r.value.targetNickname == AdminLabel && r.value.roomType == AdminChat
    {
      if memberId !in members {
        return Err(MemberNotFound);
      }
      if FixedAdminId !in admins {
        return Err(AdminNotFound);
      }
      var existing := AdminRoomsOfPair(rooms, FixedAdminId, memberId);
      if |existing| > 0 {
        assert existing[0] in existing;
        var v := ToDto(existing[0], memberId, AsMember);
        return Ok(v);
      }
      rooms := AddRoom(rooms, AdminPair(FixedAdminId, memberId));
      var v := ToDto(rooms[|rooms| - 1], memberId, AsMember);
      r := Ok(v);
    }

    /** The member's mentoring rooms followed by its admin rooms, all projected for a member viewer. */
    method GetAllMyChatRooms(memberId: int) returns (views: seq<RoomView>)
      modifies this`nicknameCache
      ensures var listed := MentoringRoomsOf(rooms, memberId) + AdminRoomsOfMember(rooms, memberId);
        views == ViewsAll(old(nicknameCache), members, messages, listed, memberId, AsMember) &&
        nicknameCache == CacheAfterAll(old(nicknameCache), members, listed, memberId)
      ensures |views| == |MentoringRoomsOf(rooms, memberId)| + |AdminRoomsOfMember(rooms, memberId)|
    {
      views := ToDtos(MentoringRoomsOf(rooms, memberId) + AdminRoomsOfMember(rooms, memberId), memberId, AsMember);
    }

    /** Only a ROLE_ADMIN caller may list rooms, and only the admin rooms it is the administrator of. */
    method GetAllMyAdminChatRooms(viewer: Viewer) returns (r: Result<seq<RoomView>, ChatError>)
      modifies this`nicknameCache
      ensures nicknameCache == old(nicknameCache)
      ensures r.Err? <==> viewer.authority != RoleAdmin
      ensures r.Err? ==> r.error == AdminOnly
      ensures r.Ok? ==> r.value == ViewsAll(nicknameCache, members, messages,
                                            AdminRoomsOfAdmin(rooms, viewer.id), viewer.id, AsAdmin)
    {
      if viewer.authority != RoleAdmin {
        return Err(AdminOnly);
      }
      var listed := AdminRoomsOfAdmin(rooms, viewer.id);
      assert forall i :: 0 <= i < |listed| ==> listed[i] in listed;
      AdminRoomsLeaveCache(nicknameCache, members, listed, viewer.id);
      var views := ToDtos(listed, viewer.id, AsAdmin);
      r := Ok(views);
    }

    method GetChatRoomDetail(chatRoomId: int, viewer: Viewer) returns (r: Result<RoomView, ChatError>)
      requires Valid()
      modifies this`nicknameCache
      ensures FindRoom(rooms, chatRoomId).None? ==> r == Err(RoomNotFound) && nicknameCache == old(nicknameCache)
      ensures FindRoom(rooms, chatRoomId).Some? ==>
        var room := FindRoom(rooms, chatRoomId).value;
        match CheckAccess(room, viewer)
        case Err(e) => r == Err(e) && nicknameCache == old(nicknameCache)
        case Ok(_) =>
          r == Ok(View(old(nicknameCache), members, messages, room, viewer.id, ViewerTypeOf(viewer.authority))) &&
          nicknameCache == CacheAfter(old(nicknameCache), members, room, viewer.id)
    {
      var found := FindRoom(rooms, chatRoomId);
      if found.None? {
        return Err(RoomNotFound);
      }
      var room := found.value;
      var access := CheckAccess(room, viewer);
      if access.Err? {
        return Err(access.error);
      }
      var v := ToDto(room, viewer.id, ViewerTypeOf(viewer.authority));
      r := Ok(v);
    }

    /** `stream().map(room -> toDto(room, viewerId, viewerType))`, projecting in list order. */
    method ToDtos(listed: seq<ChatRoom>, viewerId: int, viewerType: ViewerType) returns (views: seq<RoomView>)
      modifies this`nicknameCache
      ensures views == ViewsAll(old(nicknameCache), members, messages, listed, viewerId, viewerType)
      ensures nicknameCache == CacheAfterAll(old(nicknameCache), members, listed, viewerId)
    {
      views := [];
      var i := 0;
      while i < |listed|
        invariant 0 <= i <= |listed|
        invariant views == ViewsAll(old(nicknameCache), members, messages, listed[..i], viewerId, viewerType)
        invariant nicknameCache == CacheAfterAll(old(nicknameCache), members, listed[..i], viewerId)
      {
        assert listed[..i + 1][..i] == listed[..i];
        var v := ToDto(listed[i], viewerId, viewerType);
        views := views + [v];
        i := i + 1;
      }
      assert listed[..|listed|] == listed;
    }

    method ToDto(room: ChatRoom, viewerId: int, viewerType: ViewerType) returns (v: RoomView)
      modifies this`nicknameCache
      ensures v == View(old(nicknameCache), members, messages, room, viewerId, viewerType)
      ensures nicknameCache == CacheAfter(old(nicknameCache), members, room, viewerId)
    {
      var last := if room.chatRoomId in messages then Some(messages[room.chatRoomId]) else None;
      var shown := GetTargetNickname(room, viewerId, viewerType);
      v := RoomView(room.chatRoomId, room.Kind(),
                    if last.Some? then Some(last.value.content) else None,
                    if last.Some? then Some(last.value.sentAt) else None,
                    shown);
    }

    method GetTargetNickname(room: ChatRoom, viewerId: int, viewerType: ViewerType) returns (shown: string)
      modifies this`nicknameCache
      ensures shown == TargetNickname(old(nicknameCache), members, room, viewerId, viewerType)
      ensures nicknameCache == CacheAfter(old(nicknameCache), members, room, viewerId)
    {
      match room.parties
      case MentoringPair(mentorId, menteeId) =>
        var targetId := if viewerId == mentorId then menteeId else mentorId;
        if targetId !in nicknameCache {
          nicknameCache := nicknameCache[targetId := NicknameOf(members, targetId)];
        }
        shown := nicknameCache[targetId];
      case AdminPair(adminId, memberId) =>
        if viewerType == AsAdmin && viewerId == adminId {
          shown := NicknameOf(members, memberId);
        } else if viewerType == AsMember && viewerId == memberId {
          shown := AdminLabel;
        } else {
          shown := UnknownLabel;
        }
    }
  }
}
