/** The scan page (app/game/scan/page.tsx): the list of groups a guess can be
    made in, and `handleScan`, which checks a scanned QR text before handing
    it to the guess action and shows the reply. */
module ScanPage {
  import opened Wrappers
  import opened Schema
  import opened Feedback
  import QrPayload
  import GuessSanta

  datatype Verdict = Win | Lose

  /** A participant row's embedded `groups (id, name, status)`. */
  datatype GroupOption = GroupOption(id: GroupId, name: string, status: GroupStatus)

  /** The page state the handlers touch: the offered groups, the selected
      group id (`''` for none), whether the camera is on, and the verdict. */
  datatype ScanView = ScanView(groups: seq<GroupOption>, groupId: string, scanning: bool, result: Option<Verdict>)

  const SelectGroupFirst: string := "Selecciona un grupo primero"
  const NotTheSuspect: string := "Este QR no corresponde a la persona sospechosa"
  const InvalidQr: string := "QR inválido"
  const VerifyFailed: string := "Error al verificar"
  const Correct: string := "¡Correcto! \U{1F389}"
  const Incorrect: string := "¡Incorrecto! Perdiste una vida \U{2764}\U{FE0F}"

  function OptionOf(id: GroupId, g: Group): GroupOption {
    GroupOption(id, g.name, g.status)
  }

  /** The rows of `participants` whose `user_id` is `u`, each with its group
      embedded, or null when the group is not there, in table order. */
  function JoinedGroups(rows: seq<ParticipantRow>, groups: map<GroupId, Group>, u: UserId): (r: seq<Option<GroupOption>>)
    ensures forall o :: Some(o) in r ==> o.id in groups && o == OptionOf(o.id, groups[o.id]) && |RowsFor(rows, o.id, u)| > 0
    ensures forall p :: p in rows && p.userId == u && p.groupId in groups ==> Some(OptionOf(p.groupId, groups[p.groupId])) in r
  {
    if |rows| == 0 then []
    else
      var init := rows[..|rows| - 1];
      var last := rows[|rows| - 1];
      assert rows == init + [last];
      var before := JoinedGroups(init, groups, u);
      if last.userId != u then before
      else
        assert last in RowsFor(rows, last.groupId, u);
        before + [if last.groupId in groups then Some(OptionOf(last.groupId, groups[last.groupId])) else None]
  }

  /** `.filter(g => g?.status === 'drawn')`: the present groups that are
      drawn, in order. */
  function DrawnOnly(list: seq<Option<GroupOption>>): (r: seq<GroupOption>)
    ensures |r| <= |list|
    ensures forall o :: o in r <==> Some(o) in list && o.status == Drawn
  {
    if |list| == 0 then []
    else
      var rest := DrawnOnly(list[1..]);
      assert list == [list[0]] + list[1..];
      match list[0]
      case Some(o) => if o.status == Drawn then [o] + rest else rest
      case None => rest
  }

  /** `fetchGroups`: offer exactly the drawn groups the caller belongs to,
      and select the only one when there is a single one. */
  function FetchGroups(s: Store, caller: Option<UserId>, view: ScanView): (r: ScanView)
    ensures caller.None? ==> r == view
    ensures caller.Some? ==> forall o :: o in r.groups <==>
      o.status == Drawn && o.id in s.groups && o == OptionOf(o.id, s.groups[o.id]) && |RowsFor(s.participants, o.id, caller.value)| > 0
    ensures caller.Some? && |r.groups| == 1 ==> r.groupId == r.groups[0].id
    ensures |r.groups| != 1 ==> r.groupId == view.groupId
    ensures r.scanning == view.scanning && r.result == view.result
  {
    if caller.None? then view
    else
      var list := DrawnOnly(JoinedGroups(s.participants, s.groups, caller.value));
      forall o: GroupOption | o.status == Drawn && o.id in s.groups && o == OptionOf(o.id, s.groups[o.id]) && |RowsFor(s.participants, o.id, caller.value)| > 0
        ensures o in list
      {
        var rows := RowsFor(s.participants, o.id, caller.value);
        assert rows[0] in rows;
      }
      view.(groups := list, groupId := if |list| == 1 then list[0].id else view.groupId)
  }

  /** How often the embedded list holds a group: once per row the caller
      has in it, provided the group exists and is embedded as stored. */
  lemma {:induction false} JoinedGroupsCounts(rows: seq<ParticipantRow>, groups: map<GroupId, Group>, u: UserId)
    ensures forall o :: multiset(JoinedGroups(rows, groups, u))[Some(o)]
                        == (if o.id in groups && o == OptionOf(o.id, groups[o.id]) then |RowsFor(rows, o.id, u)| else 0)
  {
    if |rows| > 0 {
      var init := rows[..|rows| - 1];
      var last := rows[|rows| - 1];
      JoinedGroupsCounts(init, groups, u);
      forall o
        ensures multiset(JoinedGroups(rows, groups, u))[Some(o)]
          == if o.id in groups && o == OptionOf(o.id, groups[o.id]) then |RowsFor(rows, o.id, u)| else 0
      {
        RowsForAppend(init, last, o.id, u);
        assert init + [last] == rows;
      }
    }
  }

  /** The drawn filter keeps every drawn group as often as the list holds it. */
  lemma {:induction false} DrawnOnlyCounts(list: seq<Option<GroupOption>>)
    ensures forall o :: multiset(DrawnOnly(list))[o] == if o.status == Drawn then multiset(list)[Some(o)] else 0
  {
    if |list| > 0 {
      var rest := list[1..];
      DrawnOnlyCounts(rest);
      assert list == [list[0]] + rest;
      assert multiset(list) == multiset{list[0]} + multiset(rest);
      match list[0]
      case Some(x) =>
        if x.status == Drawn {
          assert DrawnOnly(list) == [x] + DrawnOnly(rest);
        } else {
          assert DrawnOnly(list) == DrawnOnly(rest);
        }
      case None =>
        assert DrawnOnly(list) == DrawnOnly(rest);
    }
  }

  /** The page lists each of the caller's drawn groups once per row the
      caller has in it; with one row per (group, user), at most once. */
  lemma FetchGroupsCounts(s: Store, caller: UserId, view: ScanView)
    ensures forall o :: multiset(FetchGroups(s, Some(caller), view).groups)[o]
                        == (if o.status == Drawn && o.id in s.groups && o == OptionOf(o.id, s.groups[o.id])
                            then |RowsFor(s.participants, o.id, caller)| else 0)
    ensures UniqueParticipants(s.participants) ==>
      forall o :: multiset(FetchGroups(s, Some(caller), view).groups)[o] <= 1
  {
    JoinedGroupsCounts(s.participants, s.groups, caller);
    DrawnOnlyCounts(JoinedGroups(s.participants, s.groups, caller));
  }

  /** A caller who belongs to exactly one drawn group (one row per pair)
      sees that group alone, and it is selected. */
  lemma SingleDrawnGroupIsSelected(s: Store, caller: UserId, view: ScanView, g: GroupId)
    requires UniqueParticipants(s.participants)
    requires g in s.groups && s.groups[g].status == Drawn && |RowsFor(s.participants, g, caller)| > 0
    requires forall h :: h in s.groups && s.groups[h].status == Drawn && |RowsFor(s.participants, h, caller)| > 0 ==> h == g
    ensures FetchGroups(s, Some(caller), view).groups == [OptionOf(g, s.groups[g])]
    ensures FetchGroups(s, Some(caller), view).groupId == g
  {
    var list := FetchGroups(s, Some(caller), view).groups;
    var only := OptionOf(g, s.groups[g]);
    FetchGroupsCounts(s, caller, view);
    assert |RowsFor(s.participants, g, caller)| == 1;
    assert multiset(list) == multiset{only};
    assert |list| == |multiset(list)| == 1;
    assert list[0] in multiset(list);
  }

  /** What `handleScan` decides before any server call. */
  datatype ScanStep = Refuse(message: string) | Submit(groupId: GroupId, suspectId: UserId, scannedToken: Option<string>)

  /** The checks of `handleScan` on the selected group, the `suspect` URL
      parameter and the scanned text, in the order the handler makes them. */
  function PreCheck(groupId: string, suspectParam: Option<string>, data: string): (r: ScanStep)
    ensures groupId == [] || suspectParam.None? || suspectParam.value == [] ==> r == Refuse(SelectGroupFirst)
    ensures groupId != [] && suspectParam.Some? && suspectParam.value != [] ==>
      match QrPayload.Parse(data)
      case None => r == Refuse(InvalidQr)
      case Some(members) =>
        if QrPayload.Member(members, QrPayload.UserIdKey) == suspectParam
        then r == Submit(groupId, suspectParam.value, QrPayload.Member(members, QrPayload.QrTokenKey))
        else r == Refuse(NotTheSuspect)
  {
    if groupId == [] || suspectParam.None? || suspectParam.value == [] then Refuse(SelectGroupFirst)
    else
      match QrPayload.Parse(data)
      case None => Refuse(InvalidQr)
      case Some(members) =>
        if QrPayload.Member(members, QrPayload.UserIdKey) != suspectParam then Refuse(NotTheSuspect)
        else Submit(groupId, suspectParam.value, QrPayload.Member(members, QrPayload.QrTokenKey))
  }

  /** How the page shows the guess action's reply: a failure only raises a
      toast; a success sets the verdict. */
  function ShowReply(view: ScanView, reply: GuessSanta.GuessReply): (r: (ScanView, Toast))
    ensures !reply.Success() ==> r == (view, ErrorToast(OrElse(reply.Error().value, VerifyFailed)))
    ensures reply.Success() ==> r.0 == view.(result := Some(if reply.IsCorrect() then Win else Lose))
    ensures reply.Success() ==> r.1 == (if reply.IsCorrect() then SuccessToast(Correct) else ErrorToast(Incorrect))
  {
    if !reply.Success() then (view, ErrorToast(OrElse(reply.Error().value, VerifyFailed)))
    else if reply.IsCorrect() then (view.(result := Some(Win)), SuccessToast(Correct))
    else (view.(result := Some(Lose)), ErrorToast(Incorrect))
  }

  /** `handleScan(data)` with the page in state `view`, the URL's `suspect`
      parameter `suspectParam` and the signed-in `caller`; `rpcError` and
      `updateFails` are passed on to the guess action. */
  function HandleScan(view: ScanView, s: Store, caller: Option<UserId>, suspectParam: Option<string>, data: string,
                      rpcError: Option<string>, updateFails: bool): (r: (ScanView, Toast, Store))
    // Refused before any server call: a toast and nothing else.
    ensures PreCheck(view.groupId, suspectParam, data).Refuse? ==>
      r == (view, ErrorToast(PreCheck(view.groupId, suspectParam, data).message), s)
    // Otherwise the action gets the selected group, the URL's suspect and the payload's token.
    ensures var step := PreCheck(view.groupId, suspectParam, data);
      step.Submit? ==>
        var reply := GuessSanta.AttemptGuess(s, caller, view.groupId, step.suspectId, step.scannedToken, rpcError, updateFails);
        && r.2 == reply.1
        && r.0.groups == view.groups && r.0.groupId == view.groupId && !r.0.scanning
        && (!reply.0.Success() ==> r.0.result == view.result && r.1.ErrorToast?)
        && (reply.0.Success() ==> r.0.result == Some(if reply.0.IsCorrect() then Win else Lose))
  {
    match PreCheck(view.groupId, suspectParam, data)
    case Refuse(message) => (view, ErrorToast(message), s)
    case Submit(g, suspect, token) =>
      var reply := GuessSanta.AttemptGuess(s, caller, g, suspect, token, rpcError, updateFails);
      var shown := ShowReply(view.(scanning := false), reply.0);
      (shown.0, shown.1, reply.1)
  }

  /** Scanning the QR code of user `u`, whose payload carries `token`: the
      page sends a guess exactly when `u` is the suspect, and then sends the
      token from the code. */
  lemma ScanOfUsersQr(groupId: string, suspect: UserId, u: UserId, token: string)
    requires groupId != [] && suspect != []
    ensures PreCheck(groupId, Some(suspect), QrPayload.Encode(u, token)).Submit? <==> u == suspect
    ensures u == suspect ==> PreCheck(groupId, Some(suspect), QrPayload.Encode(u, token)) == Submit(groupId, suspect, Some(token))
  {
    QrPayload.RoundTripMembers(u, token);
  }

  /** Scanning the genuine QR code of the suspect while signed in always
      reaches the remote call.  When it succeeds the page shows a verdict, a
      win exactly when the suspect is the caller's santa; when it reports an
      error the page keeps its previous verdict and shows that error. */
  lemma GenuineQrGetsVerdict(view: ScanView, s: Store, caller: UserId, suspect: UserId,
                             rpcError: Option<string>, updateFails: bool)
    requires view.groupId != [] && suspect != []
    requires suspect in s.profiles
    ensures var data := QrPayload.Encode(suspect, s.profiles[suspect].qrToken);
      var r := HandleScan(view, s, Some(caller), Some(suspect), data, rpcError, updateFails);
      && (rpcError.None? ==> r.0.result == Some(if AttemptGuessRpc(s, caller, view.groupId, suspect) then Win else Lose))
      && (rpcError.Some? ==> r.0.result == view.result && r.1 == ErrorToast(OrElse(rpcError.value, VerifyFailed)) && r.2 == s)
  {
    var token := s.profiles[suspect].qrToken;
    var data := QrPayload.Encode(suspect, token);
    ScanOfUsersQr(view.groupId, suspect, suspect, token);
    assert PreCheck(view.groupId, Some(suspect), data) == Submit(view.groupId, suspect, Some(token));
    var reply := GuessSanta.AttemptGuess(s, Some(caller), view.groupId, suspect, Some(token), rpcError, updateFails);
    assert HandleScan(view, s, Some(caller), Some(suspect), data, rpcError, updateFails)
        == (ShowReply(view.(scanning := false), reply.0).0, ShowReply(view.(scanning := false), reply.0).1, reply.1);
  }
}
