/** The join-group server action `joinGroup` (app/actions/join-group.ts). */
module JoinGroup {
  import opened Wrappers
  import opened Schema
  import opened Feedback
  import JsText

  const InvalidCode: string := "Código de invitación inválido"
  const AlreadyDrawn: string := "El sorteo ya se ha realizado en este grupo"
  const AlreadyMemberNote: string := "Ya eres miembro de este grupo"
  const JoinFailedFallback: string := "Error al unirse al grupo"

  /** The action's reply. */
  datatype JoinReply =
    | NeedsLogin                      // { success: false, error: 'Not authenticated', redirect: true }
    | Refused(error: string)          // { success: false, error }
    | AlreadyMember(groupId: GroupId) // { success: true, groupId, message }
    | Joined(groupId: GroupId)        // { success: true, groupId }
  {
    predicate Success() {
      AlreadyMember? || Joined?
    }

    predicate Redirect() {
      NeedsLogin?
    }

    function Error(): (r: Option<string>)
      ensures r.Some? <==> !Success()
    {
      match this
      case NeedsLogin => Some("Not authenticated")
      case Refused(e) => Some(e)
      case _ => None
    }

    function Message(): (r: Option<string>)
      ensures r.Some? <==> AlreadyMember?
    {
      if AlreadyMember? then Some(AlreadyMemberNote) else None
    }
  }

  /** The groups whose invite code is `code`. */
  function WithCode(groups: map<GroupId, Group>, code: string): set<GroupId> {
    set id | id in groups && groups[id].inviteCode == code
  }

  /** `.eq('invite_code', code).single()`: the group when exactly one has
      that code, nothing otherwise. */
  function FindByInviteCode(groups: map<GroupId, Group>, code: string): (r: Option<GroupId>)
    ensures r.Some? <==> |WithCode(groups, code)| == 1
    ensures r.Some? ==> WithCode(groups, code) == {r.value}
  {
    var ids := WithCode(groups, code);
    if |ids| == 1 then
      var id := PickOnly(ids);
      Some(id)
    else None
  }

  /** The element of a one-element set. */
  function PickOnly(ids: set<GroupId>): (id: GroupId)
    requires |ids| == 1
    ensures ids == {id}
  {
    var id :| id in ids;
    assert |ids - {id}| == 0;
    assert ids == {id};
    id
  }

  /** `joinGroup(inviteCode)` run by `caller` (`None` when no one is signed
      in); `insertError` is the message of the error the participant insert
      reports, if any. */
  function JoinGroup(s: Store, caller: Option<UserId>, inviteCode: string, insertError: Option<string>): (r: (JoinReply, Store))
    // Only the participants table can change, and only by one appended row.
    ensures r.1 == s || (|r.1.participants| == |s.participants| + 1 && r.1 == s.(participants := s.participants + [r.1.participants[|s.participants|]]))
    ensures caller.None? ==> r == (NeedsLogin, s)
    // The code is trimmed before the lookup; an unknown code inserts nothing.
    ensures caller.Some? && FindByInviteCode(s.groups, JsText.Trim(inviteCode)).None? ==> r == (Refused(InvalidCode), s)
    ensures caller.Some? && FindByInviteCode(s.groups, JsText.Trim(inviteCode)).Some? ==>
      var g := FindByInviteCode(s.groups, JsText.Trim(inviteCode)).value;
      // A drawn group refuses everyone, members included.
      && (s.groups[g].status == Drawn ==> r == (Refused(AlreadyDrawn), s))
      && (s.groups[g].status == Open && SingleRow(s.participants, g, caller.value).Some? ==> r == (AlreadyMember(g), s))
      && (s.groups[g].status == Open && SingleRow(s.participants, g, caller.value).None? ==>
            if insertError.Some? then r == (Refused(OrElse(insertError.value, JoinFailedFallback)), s)
            else r == (Joined(g), s.(participants := s.participants + [StoredParticipant(ParticipantInsert(g, caller.value, None))])))
  {
    if caller.None? then (NeedsLogin, s)
    else
      match FindByInviteCode(s.groups, JsText.Trim(inviteCode))
      case None => (Refused(InvalidCode), s)
      case Some(g) =>
        if s.groups[g].status == Drawn then (Refused(AlreadyDrawn), s)
        else if SingleRow(s.participants, g, caller.value).Some? then (AlreadyMember(g), s)
        else if insertError.Some? then (Refused(OrElse(insertError.value, JoinFailedFallback)), s)
        else
          var row := StoredParticipant(ParticipantInsert(g, caller.value, None));
          var rows := s.participants + [row];
          assert rows[|s.participants|] == row;
          (Joined(g), s.(participants := rows))
  }

  /** An open group that is the only one with the typed code (once trimmed)
      can be joined by anyone signed in, when the insert succeeds. */
  lemma OpenGroupWithCodeIsJoinable(s: Store, joiner: UserId, typed: string, g: GroupId)
    requires WithCode(s.groups, JsText.Trim(typed)) == {g}
    requires s.groups[g].status == Open
    ensures JoinGroup(s, Some(joiner), typed, None).0.Success()
    ensures JoinGroup(s, Some(joiner), typed, None).0.groupId == g
  {
    assert FindByInviteCode(s.groups, JsText.Trim(typed)) == Some(g);
  }

  /** Joining keeps the store invariants: in particular it never creates a
      second row for the same (group, user). */
  lemma JoinPreservesWellFormed(s: Store, caller: Option<UserId>, inviteCode: string, insertError: Option<string>)
    requires WellFormed(s)
    ensures WellFormed(JoinGroup(s, caller, inviteCode, insertError).1)
  {
    var r := JoinGroup(s, caller, inviteCode, insertError);
    if r.0.Joined? {
      var g := r.0.groupId;
      var u := caller.value;
      var row := ParticipantRow(g, u, DefaultLives);
      assert r.1.participants == s.participants + [row];
      assert |RowsFor(s.participants, g, u)| == 0;
      forall g': GroupId, u': UserId
        ensures |RowsFor(r.1.participants, g', u')| <= 1
      {
        RowsForAppend(s.participants, row, g', u');
      }
    }
  }

  /** With one row per (group, user) beforehand, after a successful join the
      caller is a member with exactly one row: a second join with the same
      code (the group still open) reports membership and writes nothing. */
  lemma JoinIsIdempotent(s: Store, caller: UserId, inviteCode: string, insertError: Option<string>, again: Option<string>)
    requires UniqueParticipants(s.participants)
    requires JoinGroup(s, Some(caller), inviteCode, insertError).0.Success()
    ensures var s1 := JoinGroup(s, Some(caller), inviteCode, insertError).1;
      var g := JoinGroup(s, Some(caller), inviteCode, insertError).0.groupId;
      && |RowsFor(s1.participants, g, caller)| == 1
      && JoinGroup(s1, Some(caller), inviteCode, again) == (AlreadyMember(g), s1)
  {
    var r := JoinGroup(s, Some(caller), inviteCode, insertError);
    var g := r.0.groupId;
    assert r.1.groups == s.groups;
    assert FindByInviteCode(s.groups, JsText.Trim(inviteCode)) == Some(g);
    if r.0.Joined? {
      RowsForAppend(s.participants, ParticipantRow(g, caller, DefaultLives), g, caller);
    }
  }
}
