/** The workspace handler of the backend: name validation, the creation
    transaction that adds the owner and the invited users, the membership
    check of the read and invite endpoints, the invite loop and its count,
    and the projection of a loaded workspace into its response.

    The database is modelled by the handler's own tables: users by id,
    workspace rows by id and member rows in insertion order. Which inserts
    fail is not something the handler decides, so each write-performing
    method takes the set of its insert attempts (numbered from 0, in the
    order they are made) that the database rejects. Clock readings arrive
    already formatted as `now`. */
module Workspace {
  import opened Wrappers

  /** A Go string: `len` counts bytes. */
  type GoString = seq<bv8>

  datatype User = User(id: int, email: string, nickname: string, profileImg: Option<string>)

  /** The zero value gorm leaves in a preloaded association whose row does
      not exist. */
  const ZeroUser := User(0, "", "", None)

  datatype WorkspaceRecord = WorkspaceRecord(name: GoString, ownerId: int, createdAt: string)

  /** A `workspace_members` row; its id is its position in the table plus
      one. */
  datatype MemberRecord = MemberRecord(workspaceId: int, userId: int, roleId: Option<int>, joinedAt: string)

  /** A member row with its `User` preloaded. */
  datatype Member = Member(id: int, userId: int, roleId: Option<int>, joinedAt: string, user: User)

  /** A workspace row with `Owner` and `Members.User` preloaded. */
  datatype Workspace = Workspace(id: int, name: GoString, ownerId: int, createdAt: string, owner: User, members: seq<Member>)

  datatype UserResponse = UserResponse(id: int, email: string, nickname: string, profileImg: Option<string>)

  datatype MemberResponse = MemberResponse(id: int, userId: int, roleId: Option<int>, joinedAt: string, user: Option<UserResponse>)

  /** `members` is omitted from the JSON when empty. */
  datatype WorkspaceResponse = WorkspaceResponse(id: int, name: GoString, ownerId: int, createdAt: string,
                                                 owner: Option<UserResponse>, members: seq<MemberResponse>)

  /** A handler's reply: a status and a body, or a status and the `error`
      message. */
  datatype Reply<T> = Ok(status: nat, body: T) | Err(status: nat, error: string)

  datatype CreateWorkspaceRequest = CreateWorkspaceRequest(name: GoString, memberIds: seq<int>)

  /** The name checks of `CreateWorkspace`, in order: required, then 2 to 100
      bytes. */
  function NameError(name: GoString): (r: Option<string>)
    ensures r.None? <==> 2 <= |name| <= 100
    ensures |name| == 0 ==> r == Some("workspace name is required")
    ensures 0 < |name| && (|name| < 2 || 100 < |name|) ==> r == Some("workspace name must be between 2 and 100 characters")
  {
    if name == [] then Some("workspace name is required")
    else if |name| < 2 || |name| > 100 then Some("workspace name must be between 2 and 100 characters")
    else None
  }

  /** The user ids of `members`, in order. */
  function UserIds(members: seq<Member>): (r: seq<int>)
    ensures |r| == |members|
    ensures forall i :: 0 <= i < |r| ==> r[i] == members[i].userId
  {
    seq(|members|, i requires 0 <= i < |members| => members[i].userId)
  }

  /** Some element of `members` belongs to `userId`. */
  predicate HasUser(members: seq<Member>, userId: int)
  {
    userId in UserIds(members)
  }

  /** The user ids of the rows of workspace `workspaceId`, in table order. */
  function RowUserIds(rows: seq<MemberRecord>, workspaceId: int): seq<int>
  {
    if rows == [] then []
    else (if rows[0].workspaceId == workspaceId then [rows[0].userId] else []) + RowUserIds(rows[1..], workspaceId)
  }

  /** Some row of `rows` makes `userId` a member of workspace `workspaceId`. */
  predicate HasRow(rows: seq<MemberRecord>, workspaceId: int, userId: int)
  {
    userId in RowUserIds(rows, workspaceId)
  }

  /** The `isMember` loop: scan the members, stop at the first match. */
  method IsMember(members: seq<Member>, userId: int) returns (isMember: bool)
    ensures isMember <==> HasUser(members, userId)
  {
    isMember := false;
    var i := 0;
    while i < |members|
      invariant 0 <= i <= |members|
      invariant forall j :: 0 <= j < i ==> members[j].userId != userId
    {
      if members[i].userId == userId {
        isMember := true;
        break;
      }
      i := i + 1;
    }
  }

  function ToUserResponse(u: User): (r: UserResponse)
    ensures r.id == u.id && r.email == u.email && r.nickname == u.nickname && r.profileImg == u.profileImg
  {
    UserResponse(u.id, u.email, u.nickname, u.profileImg)
  }

  /** One element of the `Members` loop of `toWorkspaceResponse`. */
  function ToMemberResponse(m: Member): (r: MemberResponse)
    ensures r.id == m.id && r.userId == m.userId && r.roleId == m.roleId && r.joinedAt == m.joinedAt
    ensures r.user.Some? <==> m.user.id != 0
    ensures r.user.Some? ==> r.user.value == ToUserResponse(m.user)
  {
    MemberResponse(m.id, m.userId, m.roleId, m.joinedAt,
                   if m.user.id != 0 then Some(ToUserResponse(m.user)) else None)
  }

  /** `toWorkspaceResponse` */
  function ToWorkspaceResponse(ws: Workspace): (r: WorkspaceResponse)
    ensures r.id == ws.id && r.name == ws.name && r.ownerId == ws.ownerId && r.createdAt == ws.createdAt
    ensures r.owner.Some? <==> ws.owner.id != 0
    ensures r.owner.Some? ==> r.owner.value == ToUserResponse(ws.owner)
    ensures |r.members| == |ws.members|
    ensures forall i :: 0 <= i < |ws.members| ==> r.members[i] == ToMemberResponse(ws.members[i])
  {
    var owner := if ws.owner.id != 0 then Some(ToUserResponse(ws.owner)) else None;
    var members := seq(|ws.members|, i requires 0 <= i < |ws.members| => ToMemberResponse(ws.members[i]));
    WorkspaceResponse(ws.id, ws.name, ws.ownerId, ws.createdAt, owner, members)
  }

  /** The response lists exactly the workspace's members, in order, and the
      omitted list means no member. */
  lemma ResponseListsMembers(ws: Workspace)
    ensures var r := ToWorkspaceResponse(ws);
            && (forall i :: 0 <= i < |r.members| ==> r.members[i].userId == UserIds(ws.members)[i])
            && (r.members == [] <==> ws.members == [])
  {
  }

  /** The `GetMyWorkspaces` loop: one response per workspace found, in the
      same order, and `total` counts them. */
  method ListResponses(workspaces: seq<Workspace>) returns (responses: seq<WorkspaceResponse>, total: nat)
    ensures total == |responses| == |workspaces|
    ensures forall i :: 0 <= i < |workspaces| ==> responses[i] == ToWorkspaceResponse(workspaces[i])
  {
    var buffer := new WorkspaceResponse[|workspaces|](_ => WorkspaceResponse(0, [], 0, "", None, []));
    for i := 0 to |workspaces|
      invariant forall j :: 0 <= j < i ==> buffer[j] == ToWorkspaceResponse(workspaces[j])
    {
      buffer[i] := ToWorkspaceResponse(workspaces[i]);
    }
    responses := buffer[..];
    total := |responses|;
  }

  /** The preloaded user, or the zero value when there is none. */
  function UserOrZero(users: map<int, User>, id: int): User
  {
    if id in users then users[id] else ZeroUser
  }

  /** The rows of workspace `workspaceId`, with their `User` preloaded;
      `offset` is the table position of `rows[0]`. */
  function MembersOf(rows: seq<MemberRecord>, workspaceId: int, users: map<int, User>, offset: nat): (r: seq<Member>)
    ensures UserIds(r) == RowUserIds(rows, workspaceId)
    decreases |rows|
  {
    if rows == [] then []
    else
      var row := rows[0];
      var rest := MembersOf(rows[1..], workspaceId, users, offset + 1);
      var head := if row.workspaceId == workspaceId
                  then [Member(offset + 1, row.userId, row.roleId, row.joinedAt, UserOrZero(users, row.userId))]
                  else [];
      assert UserIds(head + rest) == UserIds(head) + UserIds(rest);
      head + rest
  }

  /** The rows inserted for `userIds`, in order. */
  function RowsFor(workspaceId: int, userIds: seq<int>, now: string): (r: seq<MemberRecord>)
    ensures |r| == |userIds|
  {
    if userIds == [] then []
    else
      var n := |userIds| - 1;
      RowsFor(workspaceId, userIds[..n], now) + [MemberRecord(workspaceId, userIds[n], None, now)]
  }

  /** The ids `CreateWorkspace` invites, in request order: not the owner,
      and an existing user. */
  function Invited(ownerId: int, users: map<int, User>, ids: seq<int>): (r: seq<int>)
    ensures |r| <= |ids|
  {
    if ids == [] then []
    else
      var last := ids[|ids| - 1];
      Invited(ownerId, users, ids[..|ids| - 1]) + (if last != ownerId && last in users then [last] else [])
  }

  /** An id is invited exactly when the request names it, it is not the
      owner, and it names an existing user. */
  lemma {:induction false} InvitedSelects(ownerId: int, users: map<int, User>, ids: seq<int>)
    ensures forall x :: x in Invited(ownerId, users, ids) <==> x in ids && x != ownerId && x in users
  {
    if ids != [] {
      var init := ids[..|ids| - 1];
      InvitedSelects(ownerId, users, init);
      assert ids == init + [ids[|ids| - 1]];
    }
  }

  /** The ids `AddMembers` tries to insert, in request order: not in the
      map of members loaded before the loop, and an existing user. A
      duplicated request id is a candidate every time it occurs. */
  function Candidates(loaded: seq<Member>, users: map<int, User>, ids: seq<int>): (r: seq<int>)
    ensures |r| <= |ids|
  {
    if ids == [] then []
    else
      var last := ids[|ids| - 1];
      Candidates(loaded, users, ids[..|ids| - 1]) + (if !HasUser(loaded, last) && last in users then [last] else [])
  }

  /** An id is a candidate exactly when the request names it, it is not yet
      a member, and it names an existing user. */
  lemma {:induction false} CandidatesSelect(loaded: seq<Member>, users: map<int, User>, ids: seq<int>)
    ensures forall x :: x in Candidates(loaded, users, ids) <==> x in ids && !HasUser(loaded, x) && x in users
  {
    if ids != [] {
      var init := ids[..|ids| - 1];
      CandidatesSelect(loaded, users, init);
      assert ids == init + [ids[|ids| - 1]];
    }
  }

  /** The candidates whose insert attempt succeeds: attempt `i` is the
      insert of `candidates[i]`. */
  function Succeeded(candidates: seq<int>, failing: set<nat>): (r: seq<int>)
    ensures |r| <= |candidates|
  {
    if candidates == [] then []
    else
      var n := |candidates| - 1;
      Succeeded(candidates[..n], failing) + (if n !in failing then [candidates[n]] else [])
  }

  /** Only candidates are inserted, and when no attempt is rejected every
      candidate is. */
  lemma {:induction false} SucceededCandidates(candidates: seq<int>, failing: set<nat>)
    ensures forall x :: x in Succeeded(candidates, failing) ==> x in candidates
    ensures (forall a :: a in failing ==> a >= |candidates|) ==> Succeeded(candidates, failing) == candidates
  {
    if candidates != [] {
      var n := |candidates| - 1;
      SucceededCandidates(candidates[..n], failing);
      assert candidates == candidates[..n] + [candidates[n]];
    }
  }

  /** Some insert of a creation that makes `attempts` of them is rejected. */
  predicate TransactionFails(attempts: nat, failing: set<nat>)
  {
    exists a :: a in failing && a < attempts
  }

  /** A request that names the same new user twice inserts that user twice:
      the map of existing members is filled before the loop and never
      updated. */
  lemma DuplicateIdInsertedTwice(loaded: seq<Member>, users: map<int, User>, userId: int)
    requires userId in users && !HasUser(loaded, userId)
    ensures Succeeded(Candidates(loaded, users, [userId, userId]), {}) == [userId, userId]
  {
    assert [userId, userId][..1] == [userId];
    assert [userId][..0] == [];
    assert Candidates(loaded, users, [userId]) == [userId];
  }

  class WorkspaceHandler {
    /** The `users` table by id. */
    var users: map<int, User>
    /** The `workspaces` table by id. */
    var workspaces: map<int, WorkspaceRecord>
    /** The `workspace_members` table in insertion order. */
    var members: seq<MemberRecord>
    /** The next auto-increment workspace id. */
    var nextWorkspaceId: int

    /** Ids are positive and a user row's id is its key; workspace ids are
        below the next auto-increment value. */
    ghost predicate Valid()
      reads this
    {
      && 0 < nextWorkspaceId
      && (forall id :: id in users ==> id > 0 && users[id].id == id)
      && (forall id :: id in workspaces ==> 0 < id < nextWorkspaceId)
      && (forall r :: r in members ==> r.workspaceId in workspaces)
    }

    constructor (initialUsers: map<int, User>)
      requires forall id :: id in initialUsers ==> id > 0 && initialUsers[id].id == id
      ensures Valid()
      ensures users == initialUsers && workspaces == map[] && members == []
    {
      users := initialUsers;
      workspaces := map[];
      members := [];
      nextWorkspaceId := 1;
    }

    /** `First(&workspace, id)` with `Preload("Owner").Preload("Members.User")`. */
    function Load(workspaceId: int): (ws: Workspace)
      reads this
      requires workspaceId in workspaces
      ensures ws.id == workspaceId && ws.name == workspaces[workspaceId].name
      ensures ws.ownerId == workspaces[workspaceId].ownerId
      ensures UserIds(ws.members) == RowUserIds(members, workspaceId)
    {
      var w := workspaces[workspaceId];
      Workspace(workspaceId, w.name, w.ownerId, w.createdAt, UserOrZero(users, w.ownerId),
                MembersOf(members, workspaceId, users, 0))
    }

    /** `CreateWorkspace`: parse, validate the name, sanitise it, run the
        creation transaction, and reply with the reloaded workspace. */
    method CreateWorkspace(ownerId: int, request: Option<CreateWorkspaceRequest>, sanitize: GoString -> GoString,
                           failing: set<nat>, now: string) returns (reply: Reply<WorkspaceResponse>)
      requires Valid()
      modifies this`workspaces, this`members, this`nextWorkspaceId
      ensures Valid()
      ensures request.None? ==> reply == Err(400, "invalid request body")
      ensures request.Some? && NameError(request.value.name).Some? ==> reply == Err(400, NameError(request.value.name).value)
      ensures reply.Err? ==> workspaces == old(workspaces) && members == old(members) && nextWorkspaceId == old(nextWorkspaceId)
      ensures reply.Ok? <==>
                && request.Some? && NameError(request.value.name).None?
                && !TransactionFails(2 + |Invited(ownerId, users, request.value.memberIds)|, failing)
      ensures request.Some? && NameError(request.value.name).None? && reply.Err? ==>
                reply == Err(500, "failed to create workspace")
      ensures reply.Ok? ==>
                && CreatedBy(old(workspaces), old(members), old(nextWorkspaceId), ownerId, sanitize(request.value.name),
                             request.value.memberIds, now)
                && reply == Ok(201, ToWorkspaceResponse(Load(old(nextWorkspaceId))))
                && UserIds(Load(old(nextWorkspaceId)).members) == [ownerId] + Invited(ownerId, users, request.value.memberIds)
    {
      if request.None? {
        return Err(400, "invalid request body");
      }
      var req := request.value;
      var nameError := NameError(req.name);
      if nameError.Some? {
        return Err(400, nameError.value);
      }
      var name := sanitize(req.name);

      var id := nextWorkspaceId;
      var failed := CreateTransaction(ownerId, name, req.memberIds, failing, now);
      if failed {
        return Err(500, "failed to create workspace");
      }
      reply := Ok(201, ToWorkspaceResponse(Load(id)));
    }

    /** The tables after a committed creation: the workspace row under the
        next id, the owner's member row, then one row per invited user in
        request order. */
    ghost predicate CreatedBy(workspaces0: map<int, WorkspaceRecord>, members0: seq<MemberRecord>, id: int,
                              ownerId: int, name: GoString, memberIds: seq<int>, now: string)
      reads this
    {
      && workspaces == workspaces0[id := WorkspaceRecord(name, ownerId, now)]
      && members == members0 + [MemberRecord(id, ownerId, None, now)] + RowsFor(id, Invited(ownerId, users, memberIds), now)
      && nextWorkspaceId == id + 1
    }

    /** The transaction of `CreateWorkspace`: insert the workspace (attempt
        0), the owner's member row (attempt 1), then a row for each requested
        id that is not the owner and names an existing user. A rejected
        insert rolls everything back. */
    method CreateTransaction(ownerId: int, name: GoString, memberIds: seq<int>, failing: set<nat>, now: string)
      returns (failed: bool)
      requires Valid()
      modifies this`workspaces, this`members, this`nextWorkspaceId
      ensures Valid()
      ensures failed <==> TransactionFails(2 + |Invited(ownerId, users, memberIds)|, failing)
      ensures failed ==> workspaces == old(workspaces) && members == old(members) && nextWorkspaceId == old(nextWorkspaceId)
      ensures !failed ==> CreatedBy(old(workspaces), old(members), old(nextWorkspaceId), ownerId, name, memberIds, now)
      ensures !failed ==> old(nextWorkspaceId) in workspaces
      ensures !failed ==> RowUserIds(members, old(nextWorkspaceId)) == [ownerId] + Invited(ownerId, users, memberIds)
    {
      var id := nextWorkspaceId;
      if 0 in failing || 1 in failing {
        return true;
      }
      var newRows;
      failed, newRows := InviteRows(id, ownerId, memberIds, failing, now);
      if failed {
        return;
      }
      workspaces := workspaces[id := WorkspaceRecord(name, ownerId, now)];
      var ownerRow := MemberRecord(id, ownerId, None, now);
      CreatedRows(members, id, ownerId, Invited(ownerId, users, memberIds), now);
      RowsForInWorkspace(id, Invited(ownerId, users, memberIds), now);
      members := members + [ownerRow] + newRows;
      nextWorkspaceId := id + 1;
    }

    /** The member loop of the creation transaction, after the workspace and
        the owner's row (attempts 0 and 1) went in: skip the owner and
        unknown ids, insert a row for every other id; attempt `2 + j` is the
        insert of the `j`-th invited user. */
    method InviteRows(id: int, ownerId: int, memberIds: seq<int>, failing: set<nat>, now: string)
      returns (failed: bool, newRows: seq<MemberRecord>)
      requires !TransactionFails(2, failing)
      ensures failed <==> TransactionFails(2 + |Invited(ownerId, users, memberIds)|, failing)
      ensures !failed ==> newRows == RowsFor(id, Invited(ownerId, users, memberIds), now)
    {
      newRows := [];
      ghost var invited: seq<int> := [];
      for k := 0 to |memberIds|
        invariant invited == Invited(ownerId, users, memberIds[..k])
        invariant newRows == RowsFor(id, invited, now)
        invariant !TransactionFails(2 + |invited|, failing)
      {
        var memberId := memberIds[k];
        InvitedStep(ownerId, users, memberIds, k);
        if memberId == ownerId {
          continue;
        }
        if memberId !in users {
          continue;
        }
        var attempt := 2 + |newRows|;
        if attempt in failing {
          InvitedPrefix(ownerId, users, memberIds, k + 1);
          assert attempt in failing && attempt < 2 + |Invited(ownerId, users, memberIds)|;
          return true, newRows;
        }
        RowsForAppend(id, invited, memberId, now);
        newRows := newRows + [MemberRecord(id, memberId, None, now)];
        invited := invited + [memberId];
      }
      assert memberIds[..|memberIds|] == memberIds;
      failed := false;
    }

    /** `GetWorkspace`: 400 for an unparsable id, 404 for a missing
        workspace, 403 for a caller who is not a member, the projected
        workspace otherwise. */
    method GetWorkspace(callerId: int, workspaceId: Option<int>) returns (reply: Reply<WorkspaceResponse>)
      requires Valid()
      ensures workspaceId.None? ==> reply == Err(400, "invalid workspace id")
      ensures workspaceId.Some? && workspaceId.value !in workspaces ==> reply == Err(404, "workspace not found")
      ensures workspaceId.Some? && workspaceId.value in workspaces ==>
                if HasRow(members, workspaceId.value, callerId)
                then reply == Ok(200, ToWorkspaceResponse(Load(workspaceId.value)))
                else reply == Err(403, "you are not a member of this workspace")
    {
      if workspaceId.None? {
        return Err(400, "invalid workspace id");
      }
      var id := workspaceId.value;
      if id !in workspaces {
        return Err(404, "workspace not found");
      }
      var workspace := Load(id);
      var isMember := IsMember(workspace.members, callerId);
      if !isMember {
        return Err(403, "you are not a member of this workspace");
      }
      return Ok(200, ToWorkspaceResponse(workspace));
    }

    /** `AddMembers`: after the same id, body, lookup and membership checks,
        insert every requested id that was not a member before the call and
        names an existing user; each insert commits on its own, and
        `added_count` counts the ones that succeed. */
    method AddMembers(callerId: int, workspaceId: Option<int>, request: Option<seq<int>>,
                      failing: set<nat>, now: string) returns (reply: Reply<nat>)
      requires Valid()
      modifies this`members
      ensures Valid()
      ensures workspaceId.None? ==> reply == Err(400, "invalid workspace id")
      ensures workspaceId.Some? && request.None? ==> reply == Err(400, "invalid request body")
      ensures workspaceId.Some? && request.Some? && workspaceId.value !in workspaces ==> reply == Err(404, "workspace not found")
      ensures workspaceId.Some? && request.Some? && workspaceId.value in workspaces && !HasRow(old(members), workspaceId.value, callerId) ==>
                reply == Err(403, "you are not a member of this workspace")
      ensures reply.Err? ==> members == old(members)
      ensures reply.Ok? <==>
                workspaceId.Some? && request.Some? && workspaceId.value in workspaces &&
                HasRow(old(members), workspaceId.value, callerId)
      ensures reply.Ok? ==>
                && workspaceId.Some? && request.Some? && workspaceId.value in workspaces
                && HasRow(old(members), workspaceId.value, callerId)
                && var added := Succeeded(Candidates(old(Load(workspaceId.value)).members, users, request.value), failing);
                && members == old(members) + RowsFor(workspaceId.value, added, now)
                && RowUserIds(members, workspaceId.value) == RowUserIds(old(members), workspaceId.value) + added
                && reply == Ok(200, |added|)
                && |added| <= |request.value|
    {
      if workspaceId.None? {
        return Err(400, "invalid workspace id");
      }
      if request.None? {
        return Err(400, "invalid request body");
      }
      var id, memberIds := workspaceId.value, request.value;
      if id !in workspaces {
        return Err(404, "workspace not found");
      }
      var workspace := Load(id);
      var isMember := IsMember(workspace.members, callerId);
      if !isMember {
        return Err(403, "you are not a member of this workspace");
      }

      var existingMembers := ExistingMembers(workspace.members);

      ghost var before := members;
      ghost var added := Succeeded(Candidates(workspace.members, users, memberIds), failing);
      var addedCount := InsertMembers(id, workspace.members, existingMembers, memberIds, failing, now);
      RowsForInWorkspace(id, added, now);
      InsertedRowsJoin(before, id, added, now);
      return Ok(200, addedCount);
    }

    /** The insert loop of `AddMembers`: every requested id that is not in
        the map of members loaded before the loop and names an existing user
        is inserted on its own; a rejected insert is skipped and the loop
        goes on. Attempt `j` is the insert of the `j`-th candidate. */
    method InsertMembers(id: int, loaded: seq<Member>, existingMembers: map<int, bool>, memberIds: seq<int>,
                         failing: set<nat>, now: string) returns (addedCount: nat)
      requires forall userId :: Marked(existingMembers, userId) <==> HasUser(loaded, userId)
      modifies this`members
      ensures members == old(members) + RowsFor(id, Succeeded(Candidates(loaded, users, memberIds), failing), now)
      ensures addedCount == |Succeeded(Candidates(loaded, users, memberIds), failing)| <= |memberIds|
    {
      var attempt := 0;
      addedCount := 0;
      ghost var candidates: seq<int> := [];
      ghost var added: seq<int> := [];
      for k := 0 to |memberIds|
        invariant candidates == Candidates(loaded, users, memberIds[..k])
        invariant attempt == |candidates|
        invariant added == Succeeded(candidates, failing)
        invariant members == old(members) + RowsFor(id, added, now)
        invariant addedCount == |added|
      {
        var memberId := memberIds[k];
        CandidatesStep(loaded, users, memberIds, k);
        if Marked(existingMembers, memberId) {
          continue;
        }
        if memberId !in users {
          continue;
        }
        SucceededStep(candidates, memberId, failing);
        if attempt !in failing {
          RowsForAppend(id, added, memberId, now);
          AppendOneRow(old(members), RowsFor(id, added, now), MemberRecord(id, memberId, None, now));
          members := members + [MemberRecord(id, memberId, None, now)];
          added := added + [memberId];
          addedCount := addedCount + 1;
        }
        candidates := candidates + [memberId];
        attempt := attempt + 1;
      }
      assert memberIds[..|memberIds|] == memberIds;
    }
  }

  /** A Go map lookup `m[userId]` on a `map[int64]bool`: a missing key reads
      as `false`. */
  predicate Marked(m: map<int, bool>, userId: int)
  {
    userId in m && m[userId]
  }

  /** The `existingMembers` map, filled in a loop over the members loaded
      before any insert: it marks exactly the loaded members. */
  method ExistingMembers(loaded: seq<Member>) returns (existing: map<int, bool>)
    ensures forall userId :: userId in existing ==> existing[userId]
    ensures forall userId :: Marked(existing, userId) <==> HasUser(loaded, userId)
  {
    existing := map[];
    for i := 0 to |loaded|
      invariant forall userId :: userId in existing ==> existing[userId]
      invariant forall userId :: userId in existing <==> HasUser(loaded[..i], userId)
    {
      assert UserIds(loaded[..i + 1]) == UserIds(loaded[..i]) + [loaded[i].userId];
      existing := existing[loaded[i].userId := true];
    }
    assert loaded[..|loaded|] == loaded;
  }

  /** One more requested id adds it to the invited ids exactly when it is
      not the owner and names an existing user. */
  lemma InvitedStep(ownerId: int, users: map<int, User>, ids: seq<int>, k: nat)
    requires k < |ids|
    ensures ids[k] != ownerId && ids[k] in users ==>
              Invited(ownerId, users, ids[..k + 1]) == Invited(ownerId, users, ids[..k]) + [ids[k]]
    ensures ids[k] == ownerId || ids[k] !in users ==>
              Invited(ownerId, users, ids[..k + 1]) == Invited(ownerId, users, ids[..k])
  {
    assert ids[..k + 1][..k] == ids[..k];
  }

  /** One more requested id adds it to the candidates exactly when it is
      not a member and names an existing user. */
  lemma CandidatesStep(loaded: seq<Member>, users: map<int, User>, ids: seq<int>, k: nat)
    requires k < |ids|
    ensures !HasUser(loaded, ids[k]) && ids[k] in users ==>
              Candidates(loaded, users, ids[..k + 1]) == Candidates(loaded, users, ids[..k]) + [ids[k]]
    ensures HasUser(loaded, ids[k]) || ids[k] !in users ==>
              Candidates(loaded, users, ids[..k + 1]) == Candidates(loaded, users, ids[..k])
  {
    assert ids[..k + 1][..k] == ids[..k];
  }

  /** One more candidate is inserted exactly when its attempt is not
      rejected. */
  lemma SucceededStep(candidates: seq<int>, userId: int, failing: set<nat>)
    ensures |candidates| !in failing ==>
              Succeeded(candidates + [userId], failing) == Succeeded(candidates, failing) + [userId]
    ensures |candidates| in failing ==>
              Succeeded(candidates + [userId], failing) == Succeeded(candidates, failing)
  {
    assert (candidates + [userId])[..|candidates|] == candidates;
  }

  /** Inserting one more id appends one more row. */
  lemma RowsForAppend(workspaceId: int, userIds: seq<int>, userId: int, now: string)
    ensures RowsFor(workspaceId, userIds + [userId], now) == RowsFor(workspaceId, userIds, now) + [MemberRecord(workspaceId, userId, None, now)]
  {
    assert (userIds + [userId])[..|userIds|] == userIds;
  }

  /** Inserting the rows for `userIds` appends exactly those users to the
      workspace's members. */
  lemma InsertedRowsJoin(before: seq<MemberRecord>, workspaceId: int, userIds: seq<int>, now: string)
    ensures RowUserIds(before + RowsFor(workspaceId, userIds, now), workspaceId) == RowUserIds(before, workspaceId) + userIds
  {
    RowUserIdsAppend(before, RowsFor(workspaceId, userIds, now), workspaceId);
    RowsForAddsMembers(workspaceId, userIds, now);
  }

  /** The rows a creation appends refer to the new workspace only, and make
      the owner and then the invited users its members. */
  lemma CreatedRows(before: seq<MemberRecord>, workspaceId: int, ownerId: int, invited: seq<int>, now: string)
    requires forall r :: r in before ==> r.workspaceId != workspaceId
    ensures RowUserIds(before + [MemberRecord(workspaceId, ownerId, None, now)] + RowsFor(workspaceId, invited, now), workspaceId)
            == [ownerId] + invited
  {
    var ownerRow := MemberRecord(workspaceId, ownerId, None, now);
    NoRowsFor(before, workspaceId);
    RowUserIdsAppend(before, [ownerRow], workspaceId);
    assert RowUserIds([ownerRow], workspaceId) == [ownerId];
    InsertedRowsJoin(before + [ownerRow], workspaceId, invited, now);
  }

  /** A workspace no row refers to has no members. */
  lemma {:induction false} NoRowsFor(rows: seq<MemberRecord>, workspaceId: int)
    requires forall r :: r in rows ==> r.workspaceId != workspaceId
    ensures RowUserIds(rows, workspaceId) == []
  {
    if rows != [] {
      NoRowsFor(rows[1..], workspaceId);
    }
  }

  /** Regrouping a concatenation, stated once so that the insert loop does
      not search for it. */
  lemma AppendOneRow(before: seq<MemberRecord>, rows: seq<MemberRecord>, row: MemberRecord)
    ensures before + rows + [row] == before + (rows + [row])
  {
  }

  /** Row `i` of the inserted rows is the membership of the `i`-th id in the
      workspace, with no role and the insert time as its join time. */
  lemma {:induction false} RowsForRows(workspaceId: int, userIds: seq<int>, now: string)
    ensures forall i :: 0 <= i < |userIds| ==> RowsFor(workspaceId, userIds, now)[i] == MemberRecord(workspaceId, userIds[i], None, now)
  {
    if userIds != [] {
      var n := |userIds| - 1;
      RowsForRows(workspaceId, userIds[..n], now);
    }
  }

  /** Every inserted row belongs to the workspace it was inserted for. */
  lemma {:induction false} RowsForInWorkspace(workspaceId: int, userIds: seq<int>, now: string)
    ensures forall r :: r in RowsFor(workspaceId, userIds, now) ==> r.workspaceId == workspaceId
  {
    if userIds != [] {
      RowsForInWorkspace(workspaceId, userIds[..|userIds| - 1], now);
    }
  }

  /** The members of a workspace read from a run of rows is the members read
      from each part, in order. */
  lemma {:induction false} RowUserIdsAppend(a: seq<MemberRecord>, b: seq<MemberRecord>, workspaceId: int)
    ensures RowUserIds(a + b, workspaceId) == RowUserIds(a, workspaceId) + RowUserIds(b, workspaceId)
  {
    if a != [] {
      assert (a + b)[1..] == a[1..] + b;
      RowUserIdsAppend(a[1..], b, workspaceId);
    } else {
      assert a + b == b;
    }
  }

  /** The rows inserted for `userIds` make exactly those users members of the
      workspace, in order. */
  lemma {:induction false} RowsForAddsMembers(workspaceId: int, userIds: seq<int>, now: string)
    ensures RowUserIds(RowsFor(workspaceId, userIds, now), workspaceId) == userIds
  {
    if userIds != [] {
      var n := |userIds| - 1;
      var row := MemberRecord(workspaceId, userIds[n], None, now);
      RowsForAddsMembers(workspaceId, userIds[..n], now);
      RowUserIdsAppend(RowsFor(workspaceId, userIds[..n], now), [row], workspaceId);
      assert RowUserIds([row], workspaceId) == [userIds[n]];
      assert userIds[..n] + [userIds[n]] == userIds;
    }
  }

  /** Some insert among the first `attempts` is rejected, for every longer
      run of attempts too. */
  lemma InvitedPrefix(ownerId: int, users: map<int, User>, ids: seq<int>, k: nat)
    requires k <= |ids|
    ensures |Invited(ownerId, users, ids[..k])| <= |Invited(ownerId, users, ids)|
    decreases |ids|
  {
    if k < |ids| {
      var init := ids[..|ids| - 1];
      assert init[..k] == ids[..k];
      InvitedPrefix(ownerId, users, init, k);
    } else {
      assert ids[..k] == ids;
    }
  }
}
