/** The guess-your-Santa server action `attemptGuess`
    (app/actions/guess-santa.ts) and the lives counter it lowers on a miss. */
module GuessSanta {
  import opened Wrappers
  import opened Schema

  datatype GuessError = NotAuthenticated | InvalidQrCode | RpcFailed(message: string)

  /** The action's reply: `{ success: true, isCorrect }` or
      `{ success: false, error, isCorrect: false }`. */
  datatype GuessReply = Guessed(correct: bool) | GuessFailed(error: GuessError) {

    /** The reply's `success` field. */
    predicate Success() {
      Guessed?
    }

    /** The reply's `isCorrect` field. */
    predicate IsCorrect() {
      Guessed? && correct
    }

    /** The reply's `error` field: the message of what was thrown. */
    function Error(): (r: Option<string>)
      ensures r.Some? <==> !Success()
    {
      match this
      case Guessed(_) => None
      case GuessFailed(NotAuthenticated) => Some("Not authenticated")
      case GuessFailed(InvalidQrCode) => Some("Invalid QR code")
      case GuessFailed(RpcFailed(m)) => Some(m)
    }
  }

  /** The suspect has a profile and the scanned token is the one it stores.
      `None` stands for a token that is `undefined`, which equals no stored
      token. */
  predicate TokenMatches(s: Store, suspectId: UserId, scannedToken: Option<string>) {
    suspectId in s.profiles && scannedToken == Some(s.profiles[suspectId].qrToken)
  }

  /** The lives counter after a wrong guess: the one (group, user) row loses
      a life if it has one; with no row, several rows, no lives left or a
      failed update nothing is written.  Nothing but that row changes. */
  function LoseLife(s: Store, g: GroupId, u: UserId, updateFails: bool): (r: Store)
    ensures r.profiles == s.profiles && r.groups == s.groups && r.matches == s.matches && r.wishlist == s.wishlist
    ensures |r.participants| == |s.participants|
    ensures forall g': GroupId, u': UserId | g' != g || u' != u ::
      RowsFor(r.participants, g', u') == RowsFor(s.participants, g', u')
    ensures LivesOf(s.participants, g, u).Some? && LivesOf(s.participants, g, u).value > 0 && !updateFails
      ==> LivesOf(r.participants, g, u) == Some(LivesOf(s.participants, g, u).value - 1)
    ensures LivesOf(s.participants, g, u).None? || LivesOf(s.participants, g, u).value <= 0 || updateFails
      ==> r == s
  {
    var before := LivesOf(s.participants, g, u);
    if before.Some? && before.value > 0 && !updateFails then
      UpdateOnlyRow(s.participants, g, u, before.value - 1);
      s.(participants := UpdateLives(s.participants, g, u, before.value - 1))
    else s
  }

  /** `attemptGuess(groupId, suspectId, scannedQrToken)` run by `caller`
      (`None` when no one is signed in).  `rpcError` is the error the
      `attempt_guess` call reports, if any; `updateFails` says the lives
      update did not take effect, which the action does not check. */
  function AttemptGuess(s: Store, caller: Option<UserId>, groupId: GroupId, suspectId: UserId,
                        scannedToken: Option<string>, rpcError: Option<string>, updateFails: bool): (r: (GuessReply, Store))
    // No user: failure, nothing written.
    ensures caller.None? ==> r == (GuessFailed(NotAuthenticated), s)
    // A missing suspect or a wrong token: failure before the santa check, nothing written.
    ensures caller.Some? && !TokenMatches(s, suspectId, scannedToken) ==> r == (GuessFailed(InvalidQrCode), s)
    // An error from the santa check: failure, nothing written.
    ensures caller.Some? && TokenMatches(s, suspectId, scannedToken) && rpcError.Some?
      ==> r == (GuessFailed(RpcFailed(rpcError.value)), s)
    ensures r.0.Success() <==> caller.Some? && TokenMatches(s, suspectId, scannedToken) && rpcError.None?
    // Every failure reports isCorrect false and writes nothing.
    ensures !r.0.Success() ==> !r.0.IsCorrect() && r.1 == s
    // The verdict is the santa check's, whatever the caller's lives.
    ensures r.0.Success() ==> (r.0.IsCorrect() <==> AttemptGuessRpc(s, caller.value, groupId, suspectId))
    ensures r.0.IsCorrect() ==> r.1 == s
    ensures r.0.Success() && !r.0.IsCorrect() ==> r.1 == LoseLife(s, groupId, caller.value, updateFails)
    // Only the caller's lives in this group can change.
    ensures r.1.profiles == s.profiles && r.1.groups == s.groups && r.1.matches == s.matches && r.1.wishlist == s.wishlist
  {
    if caller.None? then (GuessFailed(NotAuthenticated), s)
    else if !TokenMatches(s, suspectId, scannedToken) then (GuessFailed(InvalidQrCode), s)
    else if rpcError.Some? then (GuessFailed(RpcFailed(rpcError.value)), s)
    else
      var isCorrect := AttemptGuessRpc(s, caller.value, groupId, suspectId);
      if isCorrect then (Guessed(true), s)
      else (Guessed(false), LoseLife(s, groupId, caller.value, updateFails))
  }

  /** The reply carries nothing but the verdict: two stores that differ only
      in their match rows, but agree on whether the suspect is the caller's
      santa, give the same reply. */
  lemma ReplyRevealsOnlyVerdict(s1: Store, s2: Store, caller: Option<UserId>, groupId: GroupId, suspectId: UserId,
                                scannedToken: Option<string>, rpcError: Option<string>, updateFails: bool)
    requires s1.(matches := s2.matches) == s2
    requires caller.Some? ==> AttemptGuessRpc(s1, caller.value, groupId, suspectId) == AttemptGuessRpc(s2, caller.value, groupId, suspectId)
    ensures AttemptGuess(s1, caller, groupId, suspectId, scannedToken, rpcError, updateFails).0
         == AttemptGuess(s2, caller, groupId, suspectId, scannedToken, rpcError, updateFails).0
  {
  }

  /** A guess never raises the lives of a participant with a single row and
      never takes them below zero. */
  lemma GuessNeverRaisesLives(s: Store, caller: Option<UserId>, groupId: GroupId, suspectId: UserId,
                              scannedToken: Option<string>, rpcError: Option<string>, updateFails: bool,
                              g: GroupId, u: UserId)
    requires LivesOf(s.participants, g, u).Some? && LivesOf(s.participants, g, u).value >= 0
    ensures var after := AttemptGuess(s, caller, groupId, suspectId, scannedToken, rpcError, updateFails).1;
      LivesOf(after.participants, g, u).Some?
      && 0 <= LivesOf(after.participants, g, u).value <= LivesOf(s.participants, g, u).value
  {
    var after := AttemptGuess(s, caller, groupId, suspectId, scannedToken, rpcError, updateFails).1;
    if after != s && (g != groupId || u != caller.value) {
      assert RowsFor(after.participants, g, u) == RowsFor(s.participants, g, u);
    }
  }

  /** A guess keeps the store invariants. */
  lemma GuessPreservesWellFormed(s: Store, caller: Option<UserId>, groupId: GroupId, suspectId: UserId,
                                 scannedToken: Option<string>, rpcError: Option<string>, updateFails: bool)
    requires WellFormed(s)
    ensures WellFormed(AttemptGuess(s, caller, groupId, suspectId, scannedToken, rpcError, updateFails).1)
  {
    var after := AttemptGuess(s, caller, groupId, suspectId, scannedToken, rpcError, updateFails).1;
    if after != s {
      var p := SingleRow(s.participants, groupId, caller.value).value;
      assert p in s.participants;
      UpdatePreservesInvariants(s.participants, groupId, caller.value, p.lives - 1);
    }
  }

  // ---------------------------------------------------------------------
  // A caller's run of guesses

  /** One guess of a run: the suspect, the scanned token, the error the
      remote call reports, if any, and whether the lives update fails. */
  datatype Attempt = Attempt(suspectId: UserId, scannedToken: Option<string>, rpcError: Option<string>, updateFails: bool)

  /** The wrong guesses that cost a life: a valid token for a suspect who is
      not the caller's santa, with the remote call and the update succeeding. */
  predicate IsMiss(s: Store, caller: UserId, g: GroupId, a: Attempt) {
    TokenMatches(s, a.suspectId, a.scannedToken) && a.rpcError.None? && !a.updateFails
    && !AttemptGuessRpc(s, caller, g, a.suspectId)
  }

  function Misses(s: Store, caller: UserId, g: GroupId, attempts: seq<Attempt>): nat {
    if |attempts| == 0 then 0
    else (if IsMiss(s, caller, g, attempts[0]) then 1 else 0) + Misses(s, caller, g, attempts[1..])
  }

  /** The store after a signed-in caller's guesses in one group. */
  function GuessRun(s: Store, caller: UserId, g: GroupId, attempts: seq<Attempt>): Store
    decreases |attempts|
  {
    if |attempts| == 0 then s
    else
      var a := attempts[0];
      var next := AttemptGuess(s, Some(caller), g, a.suspectId, a.scannedToken, a.rpcError, a.updateFails).1;
      GuessRun(next, caller, g, attempts[1..])
  }

  /** Which guesses miss depends only on the profiles and the match rows. */
  lemma {:induction false} MissesFrame(s1: Store, s2: Store, caller: UserId, g: GroupId, attempts: seq<Attempt>)
    requires s1.profiles == s2.profiles && s1.matches == s2.matches
    ensures Misses(s1, caller, g, attempts) == Misses(s2, caller, g, attempts)
  {
    if |attempts| > 0 {
      MissesFrame(s1, s2, caller, g, attempts[1..]);
    }
  }

  function FloorAtZero(x: int): nat {
    if x < 0 then 0 else x
  }

  /** Each wrong guess of a run costs exactly one life until none are left:
      from `lives`, the caller ends with lives - misses, floored at zero. */
  lemma {:induction false} RunCostsOneLifePerMiss(s: Store, caller: UserId, g: GroupId, attempts: seq<Attempt>, lives: int)
    requires LivesOf(s.participants, g, caller) == Some(lives) && lives >= 0
    ensures LivesOf(GuessRun(s, caller, g, attempts).participants, g, caller)
         == Some(FloorAtZero(lives - Misses(s, caller, g, attempts)))
    decreases |attempts|
  {
    if |attempts| > 0 {
      var a := attempts[0];
      var next := AttemptGuess(s, Some(caller), g, a.suspectId, a.scannedToken, a.rpcError, a.updateFails).1;
      var lives' := if IsMiss(s, caller, g, a) && lives > 0 then lives - 1 else lives;
      assert LivesOf(next.participants, g, caller) == Some(lives');
      RunCostsOneLifePerMiss(next, caller, g, attempts[1..], lives');
      MissesFrame(next, s, caller, g, attempts[1..]);
    }
  }
}
