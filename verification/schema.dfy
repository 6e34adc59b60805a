/** The datastore's tables as the application sees them
    (types/database.types.ts), over an abstract in-memory store.

    Primary-keyed tables (profiles, groups, wishlist items) are maps from the
    key to the remaining columns.  The participants table is kept as a
    sequence of rows: the generated types do not encode a unique key on
    (group, user), so the model does not assume one.  Properties that need
    it take UniqueParticipants or a single row as a hypothesis, and the handlers'
    `.single()` reads are modelled for the case of several rows too. */
module Schema {
  import opened Wrappers

  type UserId = string
  type GroupId = string
  type ItemId = string

  /** A group's lifecycle state, the column type `'open' | 'drawn'`. */
  datatype GroupStatus = Open | Drawn

  /** The text the datastore holds for a status. */
  function StatusText(st: GroupStatus): string {
    match st
    case Open => "open"
    case Drawn => "drawn"
  }

  /** Reading the status column: only the two literal texts are statuses. */
  function ParseStatus(s: string): (r: Option<GroupStatus>)
    ensures r.Some? ==> StatusText(r.value) == s
    ensures r.None? ==> forall st: GroupStatus :: StatusText(st) != s
  {
    if s == "open" then Some(Open)
    else if s == "drawn" then Some(Drawn)
    else None
  }

  lemma {:induction false} StatusTextRoundTrip(st: GroupStatus)
    ensures ParseStatus(StatusText(st)) == Some(st)
    ensures forall other: GroupStatus :: StatusText(other) == StatusText(st) ==> other == st
  {
    match st
    case Open =>
      assert StatusText(Drawn) != "open" by { assert StatusText(Drawn)[0] == 'd'; }
    case Drawn =>
      assert StatusText(Open) != "drawn" by { assert StatusText(Open)[0] == 'o'; }
  }

  /** A profile row, keyed by the user's id. */
  datatype Profile = Profile(username: string, avatarUrl: Option<string>, qrToken: string)

  /** A group row, keyed by the group's id.  The invite code is a column the
      handlers read and write although the generated types do not list it;
      the creation timestamp is left out. */
  datatype Group = Group(name: string, adminId: UserId, status: GroupStatus, inviteCode: string)

  /** A participant row: one user's membership of one group and the lives
      left for guessing there.  The row's own surrogate id is left out. */
  datatype ParticipantRow = ParticipantRow(groupId: GroupId, userId: UserId, lives: int)

  /** A match row: a directed santa -> giftee edge inside one group. */
  datatype Match = Match(groupId: GroupId, santaId: UserId, gifteeId: UserId)

  /** A wishlist row, keyed by the item's id; the timestamp is left out. */
  datatype WishlistItem = WishlistItem(userId: UserId, title: string, url: Option<string>)

  /** The lives a participant row gets when the insert leaves `lives` out. */
  const DefaultLives: int := 3

  /** Insert shapes: the optional columns are `Option`s. */
  datatype ProfileInsert = ProfileInsert(id: UserId, username: string, avatarUrl: Option<string>, qrToken: Option<string>)
  datatype GroupInsert = GroupInsert(name: string, adminId: UserId, status: Option<GroupStatus>, inviteCode: string)
  datatype ParticipantInsert = ParticipantInsert(groupId: GroupId, userId: UserId, lives: Option<int>)

  /** The profile row an insert stores: every row has a token, the insert's
      own or, when it leaves the token out, the one the datastore
      generates, given here as `generated`. */
  function StoredProfile(ins: ProfileInsert, generated: string): (r: Profile)
    ensures r.username == ins.username && r.avatarUrl == ins.avatarUrl
    ensures ins.qrToken.Some? ==> r.qrToken == ins.qrToken.value
    ensures ins.qrToken.None? ==> r.qrToken == generated
  {
    Profile(ins.username, ins.avatarUrl, ins.qrToken.GetOr(generated))
  }

  /** The group row an insert stores: an omitted status is `open`. */
  function StoredGroup(ins: GroupInsert): (r: Group)
    ensures r.name == ins.name && r.adminId == ins.adminId && r.inviteCode == ins.inviteCode
    ensures ins.status.None? ==> r.status == Open
    ensures ins.status.Some? ==> r.status == ins.status.value
  {
    Group(ins.name, ins.adminId, ins.status.GetOr(Open), ins.inviteCode)
  }

  /** The participant row an insert stores: omitted lives take the default. */
  function StoredParticipant(ins: ParticipantInsert): (r: ParticipantRow)
    ensures r.groupId == ins.groupId && r.userId == ins.userId
    ensures ins.lives.None? ==> r.lives == DefaultLives
    ensures ins.lives.Some? ==> r.lives == ins.lives.value
  {
    ParticipantRow(ins.groupId, ins.userId, ins.lives.GetOr(DefaultLives))
  }

  /** The whole datastore. */
  datatype Store = Store(
    profiles: map<UserId, Profile>,
    groups: map<GroupId, Group>,
    participants: seq<ParticipantRow>,
    matches: set<Match>,
    wishlist: map<ItemId, WishlistItem>)

  // ---------------------------------------------------------------------
  // Reading and writing participant rows

  predicate IsRowOf(p: ParticipantRow, g: GroupId, u: UserId) {
    p.groupId == g && p.userId == u
  }

  /** The rows a query filtered by `group_id = g` and `user_id = u` returns,
      in table order. */
  function RowsFor(rows: seq<ParticipantRow>, g: GroupId, u: UserId): (r: seq<ParticipantRow>)
    ensures |r| <= |rows|
    ensures forall p :: p in r <==> p in rows && IsRowOf(p, g, u)
  {
    if |rows| == 0 then []
    else
      var last := rows[|rows| - 1];
      RowsFor(rows[..|rows| - 1], g, u) + (if IsRowOf(last, g, u) then [last] else [])
  }

  /** The query returns every row of the pair as often as the table holds
      it, and nothing else: its multiplicities are the table's, filtered. */
  lemma {:induction false} RowsForCounts(rows: seq<ParticipantRow>, g: GroupId, u: UserId)
    ensures forall p :: multiset(RowsFor(rows, g, u))[p] == if IsRowOf(p, g, u) then multiset(rows)[p] else 0
  {
    if |rows| > 0 {
      var last := rows[|rows| - 1];
      RowsForCounts(rows[..|rows| - 1], g, u);
      assert rows == rows[..|rows| - 1] + [last];
    }
  }

  lemma RowsForAppend(rows: seq<ParticipantRow>, p: ParticipantRow, g: GroupId, u: UserId)
    ensures RowsFor(rows + [p], g, u) == RowsFor(rows, g, u) + (if IsRowOf(p, g, u) then [p] else [])
  {
    assert (rows + [p])[..|rows|] == rows;
  }

  /** `.single()` on that query: the row when there is exactly one,
      nothing (an error the handlers read as "no data") otherwise. */
  function SingleRow(rows: seq<ParticipantRow>, g: GroupId, u: UserId): (r: Option<ParticipantRow>)
    ensures r.Some? <==> |RowsFor(rows, g, u)| == 1
    ensures r.Some? ==> r.value in rows && IsRowOf(r.value, g, u)
  {
    var found := RowsFor(rows, g, u);
    if |found| == 1 then Some(found[0]) else None
  }

  /** The lives `.select('lives') ... .single()` reads for (g, u). */
  function LivesOf(rows: seq<ParticipantRow>, g: GroupId, u: UserId): (r: Option<int>)
    ensures r.Some? <==> SingleRow(rows, g, u).Some?
    ensures r.Some? ==> r.value == SingleRow(rows, g, u).value.lives
  {
    match SingleRow(rows, g, u)
    case Some(p) => Some(p.lives)
    case None => None
  }

  /** `.update({ lives: v }).eq('group_id', g).eq('user_id', u)`: every row
      of (g, u) gets lives `v`, every other row stays as it is. */
  function UpdateLives(rows: seq<ParticipantRow>, g: GroupId, u: UserId, v: int): (r: seq<ParticipantRow>)
    ensures |r| == |rows|
  {
    if |rows| == 0 then []
    else
      var last := rows[|rows| - 1];
      UpdateLives(rows[..|rows| - 1], g, u, v) + [if IsRowOf(last, g, u) then last.(lives := v) else last]
  }

  /** Row by row, the update rewrites the lives of exactly the rows of
      (g, u) and leaves every other row, and the order, as it was. */
  lemma {:induction false} UpdateLivesPointwise(rows: seq<ParticipantRow>, g: GroupId, u: UserId, v: int)
    ensures forall i :: 0 <= i < |rows| ==>
      UpdateLives(rows, g, u, v)[i] == if IsRowOf(rows[i], g, u) then rows[i].(lives := v) else rows[i]
  {
    if |rows| > 0 {
      UpdateLivesPointwise(rows[..|rows| - 1], g, u, v);
    }
  }

  /** An update of (g, u) leaves what every query for another pair sees. */
  lemma {:induction false} UpdateKeepsOtherRows(rows: seq<ParticipantRow>, g: GroupId, u: UserId, v: int, g': GroupId, u': UserId)
    requires g' != g || u' != u
    ensures RowsFor(UpdateLives(rows, g, u, v), g', u') == RowsFor(rows, g', u')
  {
    if |rows| > 0 {
      var init := rows[..|rows| - 1];
      var last := rows[|rows| - 1];
      UpdateKeepsOtherRows(init, g, u, v, g', u');
      var upd := UpdateLives(rows, g, u, v);
      assert upd[..|upd| - 1] == UpdateLives(init, g, u, v);
    }
  }

  /** The same, for every other pair at once. */
  lemma UpdateKeepsOtherPairs(rows: seq<ParticipantRow>, g: GroupId, u: UserId, v: int)
    ensures forall g': GroupId, u': UserId | g' != g || u' != u ::
      RowsFor(UpdateLives(rows, g, u, v), g', u') == RowsFor(rows, g', u')
  {
    forall g': GroupId, u': UserId | g' != g || u' != u
      ensures RowsFor(UpdateLives(rows, g, u, v), g', u') == RowsFor(rows, g', u')
    {
      UpdateKeepsOtherRows(rows, g, u, v, g', u');
    }
  }

  /** An update of (g, u) keeps the number of its rows and gives each the new value. */
  lemma {:induction false} UpdateSetsOwnRows(rows: seq<ParticipantRow>, g: GroupId, u: UserId, v: int)
    ensures |RowsFor(UpdateLives(rows, g, u, v), g, u)| == |RowsFor(rows, g, u)|
    ensures forall p :: p in RowsFor(UpdateLives(rows, g, u, v), g, u) ==> p.lives == v
    ensures forall i :: 0 <= i < |RowsFor(rows, g, u)| ==>
      RowsFor(UpdateLives(rows, g, u, v), g, u)[i] == RowsFor(rows, g, u)[i].(lives := v)
  {
    if |rows| > 0 {
      var init := rows[..|rows| - 1];
      var last := rows[|rows| - 1];
      UpdateSetsOwnRows(init, g, u, v);
      var upd := UpdateLives(rows, g, u, v);
      var newLast := if IsRowOf(last, g, u) then last.(lives := v) else last;
      assert upd == UpdateLives(init, g, u, v) + [newLast];
      assert upd[..|upd| - 1] == UpdateLives(init, g, u, v) && upd[|upd| - 1] == newLast;
      assert RowsFor(upd, g, u) == RowsFor(UpdateLives(init, g, u, v), g, u) + (if IsRowOf(newLast, g, u) then [newLast] else []);
      assert RowsFor(rows, g, u) == RowsFor(init, g, u) + (if IsRowOf(last, g, u) then [last] else []);
    }
  }

  /** Updating the single row of (g, u) is what a later read of its lives sees. */
  lemma UpdateSingleRow(rows: seq<ParticipantRow>, g: GroupId, u: UserId, v: int)
    requires |RowsFor(rows, g, u)| == 1
    ensures LivesOf(UpdateLives(rows, g, u, v), g, u) == Some(v)
  {
    UpdateSetsOwnRows(rows, g, u, v);
    var after := RowsFor(UpdateLives(rows, g, u, v), g, u);
    assert after[0] in after;
  }

  /** Updating the single row of (g, u): a later read of (g, u) sees `v`,
      and every other pair's query is untouched. */
  lemma UpdateOnlyRow(rows: seq<ParticipantRow>, g: GroupId, u: UserId, v: int)
    requires |RowsFor(rows, g, u)| == 1
    ensures LivesOf(UpdateLives(rows, g, u, v), g, u) == Some(v)
    ensures forall g': GroupId, u': UserId | g' != g || u' != u ::
      RowsFor(UpdateLives(rows, g, u, v), g', u') == RowsFor(rows, g', u')
  {
    UpdateSingleRow(rows, g, u, v);
    UpdateKeepsOtherPairs(rows, g, u, v);
  }

  // ---------------------------------------------------------------------
  // Store invariants

  /** No two participant rows share a (group, user) pair. */
  ghost predicate UniqueParticipants(rows: seq<ParticipantRow>) {
    forall g: GroupId, u: UserId :: |RowsFor(rows, g, u)| <= 1
  }

  /** Lives are never negative. */
  ghost predicate NonNegativeLives(rows: seq<ParticipantRow>) {
    forall p :: p in rows ==> p.lives >= 0
  }

  ghost predicate WellFormed(s: Store) {
    UniqueParticipants(s.participants) && NonNegativeLives(s.participants)
  }

  /** Every row an update leaves behind was there before or carries the new value. */
  lemma {:induction false} UpdateRowsOrigin(rows: seq<ParticipantRow>, g: GroupId, u: UserId, v: int)
    ensures forall p :: p in UpdateLives(rows, g, u, v) ==> p in rows || p.lives == v
  {
    if |rows| > 0 {
      var init := rows[..|rows| - 1];
      UpdateRowsOrigin(init, g, u, v);
      assert rows == init + [rows[|rows| - 1]];
    }
  }

  /** Updating lives to a non-negative value keeps the store invariants. */
  lemma UpdatePreservesInvariants(rows: seq<ParticipantRow>, g: GroupId, u: UserId, v: int)
    requires UniqueParticipants(rows) && NonNegativeLives(rows)
    requires v >= 0
    ensures UniqueParticipants(UpdateLives(rows, g, u, v))
    ensures NonNegativeLives(UpdateLives(rows, g, u, v))
  {
    UpdateRowsOrigin(rows, g, u, v);
    forall g': GroupId, u': UserId
      ensures |RowsFor(UpdateLives(rows, g, u, v), g', u')| <= 1
    {
      if g' == g && u' == u {
        UpdateSetsOwnRows(rows, g, u, v);
      } else {
        UpdateKeepsOtherRows(rows, g, u, v, g', u');
      }
    }
  }

  // ---------------------------------------------------------------------
  // The `attempt_guess` remote procedure

  /** `attempt_guess(group_id_input, suspect_id)`, called by `caller`: true
      exactly when the group holds the edge suspect -> caller, that is when
      the suspect is the caller's santa.  Only the boolean comes back. */
  function AttemptGuessRpc(s: Store, caller: UserId, groupIdInput: GroupId, suspectId: UserId): bool {
    Match(groupIdInput, suspectId, caller) in s.matches
  }

  /** Each giftee of each group has at most one santa: what a draw writes. */
  ghost predicate OneSantaEach(matches: set<Match>) {
    forall m1, m2 :: m1 in matches && m2 in matches && m1.groupId == m2.groupId && m1.gifteeId == m2.gifteeId ==> m1.santaId == m2.santaId
  }

  /** With one santa per giftee, at most one suspect makes the procedure
      answer true, and any two suspects it accepts are the same user. */
  lemma RpcAcceptsAtMostOneSuspect(s: Store, caller: UserId, g: GroupId, x: UserId, y: UserId)
    requires OneSantaEach(s.matches)
    requires AttemptGuessRpc(s, caller, g, x) && AttemptGuessRpc(s, caller, g, y)
    ensures x == y
  {
    assert Match(g, x, caller) in s.matches && Match(g, y, caller) in s.matches;
  }
}
