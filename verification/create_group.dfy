/** The create-group page's `handleSubmit`
    (app/dashboard/create-group/page.tsx). */
module CreateGroup {
  import opened Wrappers
  import opened Schema
  import opened Feedback
  import opened JsText
  import JoinGroup

  const NameTooShort: string := "El nombre del grupo debe tener al menos 3 caracteres"
  const NoUser: string := "No user found"
  const CreateFailedFallback: string := "Error al crear el grupo"
  const GroupCreated: string := "¡Grupo creado exitosamente!"

  /** The characters of nanoid's default URL-safe alphabet. */
  predicate IsNanoIdChar(c: char) {
    ('A' <= c <= 'Z') || ('a' <= c <= 'z') || ('0' <= c <= '9') || c == '_' || c == '-'
  }

  /** What `nanoid(10)` returns: ten characters of that alphabet. */
  predicate IsInviteCode(code: string) {
    |code| == 10 && forall i :: 0 <= i < |code| ==> IsNanoIdChar(code[i])
  }

  function GroupPath(id: GroupId): string {
    "/dashboard/group/" + id
  }

  /** The toast shown and the page navigated to. */
  datatype CreateOutcome = CreateOutcome(toast: Toast, navigateTo: Option<string>)

  /** `handleSubmit` with the typed name, the signed-in `caller`, the id the
      datastore gives the new row, the generated invite code, and the
      message of the error the insert reports, if any. */
  function HandleCreate(s: Store, groupName: string, caller: Option<UserId>, newId: GroupId,
                        inviteCode: string, insertError: Option<string>): (r: (CreateOutcome, Store))
    requires newId !in s.groups
    requires IsInviteCode(inviteCode)
    // A name shorter than three code units once trimmed: nothing is inserted.
    ensures Utf16Length(Trim(groupName)) < 3 ==> r == (CreateOutcome(ErrorToast(NameTooShort), None), s)
    ensures Utf16Length(Trim(groupName)) >= 3 && caller.None? ==> r == (CreateOutcome(ErrorToast(NoUser), None), s)
    ensures Utf16Length(Trim(groupName)) >= 3 && caller.Some? && insertError.Some? ==>
      r == (CreateOutcome(ErrorToast(OrElse(insertError.value, CreateFailedFallback)), None), s)
    // Otherwise one open group, named by the trimmed input and owned by the caller, is added.
    ensures Utf16Length(Trim(groupName)) >= 3 && caller.Some? && insertError.None? ==>
      && r.0 == CreateOutcome(SuccessToast(GroupCreated), Some(GroupPath(newId)))
      && r.1 == s.(groups := s.groups[newId := Group(Trim(groupName), caller.value, Open, inviteCode)])
    ensures r.0.navigateTo.Some? <==> r.1 != s
  {
    var name := Trim(groupName);
    if Utf16Length(name) < 3 then (CreateOutcome(ErrorToast(NameTooShort), None), s)
    else if caller.None? then (CreateOutcome(ErrorToast(NoUser), None), s)
    else if insertError.Some? then (CreateOutcome(ErrorToast(OrElse(insertError.value, CreateFailedFallback)), None), s)
    else
      var row := StoredGroup(GroupInsert(name, caller.value, None, inviteCode));
      assert newId in s.groups[newId := row];
      (CreateOutcome(SuccessToast(GroupCreated), Some(GroupPath(newId))), s.(groups := s.groups[newId := row]))
  }

  /** A created group's name is its own trim and at least three code units
      long, and its invite code is ten characters. */
  lemma CreatedGroupIsWellNamed(s: Store, groupName: string, caller: Option<UserId>, newId: GroupId,
                                inviteCode: string, insertError: Option<string>)
    requires newId !in s.groups
    requires IsInviteCode(inviteCode)
    requires HandleCreate(s, groupName, caller, newId, inviteCode, insertError).0.navigateTo.Some?
    ensures var g := HandleCreate(s, groupName, caller, newId, inviteCode, insertError).1.groups[newId];
      Trim(g.name) == g.name && Utf16Length(g.name) >= 3 && |g.inviteCode| == 10 && g.status == Open
  {
    var r := HandleCreate(s, groupName, caller, newId, inviteCode, insertError);
    assert caller.Some? && insertError.None? && Utf16Length(Trim(groupName)) >= 3;
    assert r.1.groups[newId] == Group(Trim(groupName), caller.value, Open, inviteCode);
    TrimIdempotent(groupName);
  }

  /** Adding a group with a code no other group has makes it the one
      group with that code. */
  lemma NewCodeIsUnique(groups: map<GroupId, Group>, newId: GroupId, g: Group)
    requires JoinGroup.WithCode(groups, g.inviteCode) == {}
    ensures JoinGroup.WithCode(groups[newId := g], g.inviteCode) == {newId}
  {
    assert forall id :: id in JoinGroup.WithCode(groups[newId := g], g.inviteCode) ==>
      id == newId || id in JoinGroup.WithCode(groups, g.inviteCode);
  }

  /** When no other group has the new code, anyone signed in can join the
      group just created by typing its code, with or without surrounding
      whitespace. */
  lemma CreatedGroupIsJoinable(s: Store, groupName: string, admin: UserId, newId: GroupId, inviteCode: string,
                               joiner: UserId, typed: string)
    requires newId !in s.groups
    requires IsInviteCode(inviteCode)
    requires JoinGroup.WithCode(s.groups, inviteCode) == {}
    requires Utf16Length(Trim(groupName)) >= 3
    requires Trim(typed) == inviteCode
    ensures var s1 := HandleCreate(s, groupName, Some(admin), newId, inviteCode, None).1;
      var joined := JoinGroup.JoinGroup(s1, Some(joiner), typed, None).0;
      joined.Success() && joined.groupId == newId
  {
    var g := Group(Trim(groupName), admin, Open, inviteCode);
    var s1 := HandleCreate(s, groupName, Some(admin), newId, inviteCode, None).1;
    assert s1.groups == s.groups[newId := g];
    NewCodeIsUnique(s.groups, newId, g);
    JoinGroup.OpenGroupWithCodeIsJoinable(s1, joiner, typed, newId);
  }
}
