/** Refresh-token families: issue, rotate with reuse detection, revoke; with racing
    callers whose read and conditional update are separate steps. */
module Sessions {
  import opened Basics

  const REFRESH_TOKEN_EXPIRE_DAYS := 30
  const SECONDS_PER_DAY := 86400

  datatype Session = Session(user: Id, hash: Hash, family: Id, expiresAt: int,
                             rotatedAt: Option<int>, revokedAt: Option<int>)

  type Rows = map<Id, Session>

  /** Neither rotated nor revoked. */
  predicate IsLive(s: Session) {
    s.rotatedAt.None? && s.revokedAt.None?
  }

  /** What the conditional update matches. */
  predicate IsClaimable(rows: Rows, id: Id, now: int) {
    id in rows && IsLive(rows[id]) && rows[id].expiresAt >= now
  }

  function LiveIn(rows: Rows, family: Id): set<Id> {
    set i | i in rows && rows[i].family == family && IsLive(rows[i])
  }

  function WithToken(rows: Rows, token: Id): set<Id> {
    set i | i in rows && rows[i].hash == Hash(token)
  }

  function RevokedFamily(rows: Rows, family: Id, now: int): Rows {
    map i | i in rows ::
      if rows[i].family == family && rows[i].revokedAt.None? then rows[i].(revokedAt := Some(now)) else rows[i]
  }

  function RevokedUser(rows: Rows, user: Id, now: int): Rows {
    map i | i in rows ::
      if rows[i].user == user && rows[i].revokedAt.None? then rows[i].(revokedAt := Some(now)) else rows[i]
  }

  /** What a rotating caller has read: the row's id, family and user. */
  datatype Read = Read(id: Id, family: Id, user: Id)

  /** `next` supplies fresh ids, tokens and families; `rotations` logs the sessions
      whose conditional update matched. */
  datatype World = World(rows: Rows, users: set<Id>, next: Id, pending: map<Id, Read>, rotations: seq<Id>)

  const EMPTY := World(map[], {}, 0, map[], [])

  datatype Step =
    | SignUp
    | Login(user: Id, now: int)
    | ReadToken(caller: Id, token: Id)
    | Rotate(caller: Id, now: int)
    | Logout(token: Id, now: int)
    | RevokeAll(user: Id, now: int)
    | DeleteUser(user: Id)

  predicate Enabled(w: World, s: Step) {
    match s
    case Login(user, _) => user in w.users
    case ReadToken(_, token) => WithToken(w.rows, token) != {}
    case Rotate(caller, _) => caller in w.pending
    case _ => true
  }

  /** Add a session; without a family it starts a new one. */
  function Issued(w: World, user: Id, family: Option<Id>, now: int): World {
    var row := Session(user, Hash(w.next + 1), if family.Some? then family.value else w.next + 2,
                       now + REFRESH_TOKEN_EXPIRE_DAYS * SECONDS_PER_DAY, None, None);
    w.(rows := w.rows[w.next := row], next := w.next + 3)
  }

  /** The conditional update and what follows it: rotate and issue in the same family,
      or, when nothing matched, revoke the whole family. */
  function Rotated(w: World, read: Read, now: int): World {
    if IsClaimable(w.rows, read.id, now) then
      var claimed := w.(rows := w.rows[read.id := w.rows[read.id].(rotatedAt := Some(now))],
                        rotations := w.rotations + [read.id]);
      if read.user in w.users then Issued(claimed, read.user, Some(read.family), now) else claimed
    else w.(rows := RevokedFamily(w.rows, read.family, now))
  }

  function LoggedOut(rows: Rows, token: Id, now: int): Rows {
    map i | i in rows ::
      if rows[i].hash == Hash(token) && rows[i].revokedAt.None? then rows[i].(revokedAt := Some(now)) else rows[i]
  }

  ghost predicate Moves(w: World, s: Step, w': World) {
    Enabled(w, s) &&
    match s
    case SignUp => w' == w.(users := w.users + {w.next}, next := w.next + 1)
    case Login(user, now) => w' == Issued(w, user, None, now)
    case ReadToken(caller, token) =>
      exists i :: i in WithToken(w.rows, token) &&
        w' == w.(pending := w.pending[caller := Read(i, w.rows[i].family, w.rows[i].user)])
    case Rotate(caller, now) => w' == Rotated(w, w.pending[caller], now).(pending := w.pending - {caller})
    case Logout(token, now) => w' == w.(rows := LoggedOut(w.rows, token, now))
    case RevokeAll(user, now) => w' == w.(rows := RevokedUser(w.rows, user, now))
    case DeleteUser(user) =>
      w' == w.(users := w.users - {user}, rows := map i | i in w.rows && w.rows[i].user != user :: w.rows[i])
  }

  ghost predicate IsRun(worlds: seq<World>, steps: seq<Step>) {
    && |worlds| == |steps| + 1 && worlds[0] == EMPTY
    && forall i :: 0 <= i < |steps| ==> Moves(worlds[i], steps[i], worlds[i + 1])
  }

  // ---------------------------------------------------------------- the invariant

  ghost predicate Bounded(w: World) {
    && (forall i :: i in w.rows ==> i < w.next && w.rows[i].family < w.next && w.rows[i].hash.token < w.next)
    && (forall c :: c in w.pending ==> w.pending[c].id < w.next && w.pending[c].family < w.next)
  }

  /** A pending read never goes stale: id, family and user of a row do not change. */
  ghost predicate PendingAgree(w: World) {
    forall c :: c in w.pending && w.pending[c].id in w.rows ==>
      w.rows[w.pending[c].id].family == w.pending[c].family
  }

  ghost predicate TokensDistinct(w: World) {
    forall i, j :: i in w.rows && j in w.rows && w.rows[i].hash == w.rows[j].hash ==> i == j
  }

  ghost predicate OneLivePerFamily(w: World) {
    forall i, j ::
      (i in w.rows && j in w.rows && IsLive(w.rows[i]) && IsLive(w.rows[j])
        && w.rows[i].family == w.rows[j].family)
      ==> i == j
  }

  ghost predicate RotationsOnce(w: World) {
    && (forall k :: 0 <= k < |w.rotations| ==>
          w.rotations[k] < w.next && (w.rotations[k] in w.rows ==> w.rows[w.rotations[k]].rotatedAt.Some?))
    && (forall k, l :: 0 <= k < l < |w.rotations| ==> w.rotations[k] != w.rotations[l])
  }

  ghost predicate Sound(w: World) {
    Bounded(w) && PendingAgree(w) && TokensDistinct(w) && OneLivePerFamily(w) && RotationsOnce(w)
  }

  /** Rows that only gained stamps, or vanished. */
  ghost predicate OnlyStamped(before: Rows, after: Rows) {
    && after.Keys <= before.Keys
    && forall i :: i in after ==>
        && after[i].user == before[i].user && after[i].hash == before[i].hash && after[i].family == before[i].family
        && after[i].expiresAt == before[i].expiresAt
        && (before[i].rotatedAt.Some? ==> after[i].rotatedAt == before[i].rotatedAt)
        && (IsLive(after[i]) ==> IsLive(before[i]))
  }

  lemma StampingKeepsSound(w: World, w': World)
    requires Sound(w) && OnlyStamped(w.rows, w'.rows)
    requires w'.next >= w.next && w'.rotations == w.rotations && w'.pending.Keys <= w.pending.Keys
    requires forall c :: c in w'.pending ==> w'.pending[c] == w.pending[c]
    ensures Sound(w')
  {
  }

  /** A new session is sound when its family has no live one. */
  lemma IssueKeepsSound(w: World, user: Id, family: Option<Id>, now: int)
    requires Sound(w)
    requires family.Some? ==> family.value < w.next && LiveIn(w.rows, family.value) == {}
    ensures Sound(Issued(w, user, family, now))
  {
    var w' := Issued(w, user, family, now);
    var f := w'.rows[w.next].family;
    forall i | i in w.rows && IsLive(w.rows[i])
      ensures w.rows[i].family != f
    {
      assert w.rows[i].family != f || i in LiveIn(w.rows, f);
    }
  }

  /** The winner's own row stops being live before the next one is issued. */
  lemma ClaimKeepsSound(w: World, read: Read, now: int)
    requires Sound(w) && IsClaimable(w.rows, read.id, now)
    requires w.rows[read.id].family == read.family
    ensures var claimed := w.(rows := w.rows[read.id := w.rows[read.id].(rotatedAt := Some(now))],
                              rotations := w.rotations + [read.id]);
      Sound(claimed) && LiveIn(claimed.rows, read.family) == {} && read.family < w.next
  {
    forall i | i in w.rows && w.rows[i].family == read.family && IsLive(w.rows[i])
      ensures i == read.id
    {
    }
  }

  lemma RotateKeepsSound(w: World, read: Read, now: int)
    requires Sound(w) && read.family < w.next
    requires read.id in w.rows ==> w.rows[read.id].family == read.family
    ensures Sound(Rotated(w, read, now))
  {
    if IsClaimable(w.rows, read.id, now) {
      ClaimKeepsSound(w, read, now);
      if read.user in w.users {
        IssueKeepsSound(w.(rows := w.rows[read.id := w.rows[read.id].(rotatedAt := Some(now))],
                           rotations := w.rotations + [read.id]),
                        read.user, Some(read.family), now);
      }
    } else {
      StampingKeepsSound(w, Rotated(w, read, now));
    }
  }

  lemma StampingStepKeepsSound(w: World, s: Step, w': World)
    requires Sound(w) && Moves(w, s, w') && !s.Login? && !s.ReadToken? && !s.Rotate?
    ensures Sound(w')
  {
    assert OnlyStamped(w.rows, w'.rows);
    StampingKeepsSound(w, w');
  }

  lemma ReadKeepsSound(w: World, caller: Id, token: Id, w': World)
    requires Sound(w) && Moves(w, ReadToken(caller, token), w')
    ensures Sound(w')
  {
  }

  lemma StepKeepsSound(w: World, s: Step, w': World)
    requires Sound(w) && Moves(w, s, w')
    ensures Sound(w')
  {
    match s
    case Login(user, now) => IssueKeepsSound(w, user, None, now);
    case ReadToken(caller, token) => ReadKeepsSound(w, caller, token, w');
    case Rotate(caller, now) =>
      RotateKeepsSound(w, w.pending[caller], now);
      StampingKeepsSound(Rotated(w, w.pending[caller], now), w');
    case _ => StampingStepKeepsSound(w, s, w');
  }

  lemma {:induction false} RunIsSound(worlds: seq<World>, steps: seq<Step>, n: nat)
    requires IsRun(worlds, steps) && n <= |steps|
    ensures Sound(worlds[n])
  {
    if n > 0 {
      RunIsSound(worlds, steps, n - 1);
      assert Moves(worlds[n - 1], steps[n - 1], worlds[n]);
      StepKeepsSound(worlds[n - 1], steps[n - 1], worlds[n]);
    }
  }

  // ---------------------------------------------------------------- theorems

  /** In every reachable state each family has at most one live session, and no session
      is ever rotated twice, however many callers race for its token. */
  lemma AtMostOneLiveSession(worlds: seq<World>, steps: seq<Step>, n: nat, family: Id)
    requires IsRun(worlds, steps) && n <= |steps|
    ensures |LiveIn(worlds[n].rows, family)| <= 1
    ensures var rows := worlds[n].rows;
      forall i, j ::
        (i in rows && j in rows && rows[i].family == rows[j].family
          && rows[i].rotatedAt.None? && rows[i].revokedAt.None?
          && rows[j].rotatedAt.None? && rows[j].revokedAt.None?)
        ==> i == j
    ensures forall k, l :: 0 <= k < l < |worlds[n].rotations| ==> worlds[n].rotations[k] != worlds[n].rotations[l]
  {
    RunIsSound(worlds, steps, n);
    var live := LiveIn(worlds[n].rows, family);
    if live != {} {
      var i :| i in live;
      assert forall j :: j in live ==> j == i;
      assert live == {i};
    }
  }

  /** A family that was ever used and has no live session. */
  ghost predicate IsDead(w: World, family: Id) {
    family < w.next && LiveIn(w.rows, family) == {}
  }

  lemma DeadHasNoLiveRow(w: World, family: Id, i: Id)
    requires IsDead(w, family) && i in w.rows && w.rows[i].family == family
    ensures !IsLive(w.rows[i])
  {
    assert !IsLive(w.rows[i]) || i in LiveIn(w.rows, family);
  }

  lemma StepKeepsDead(w: World, s: Step, w': World, family: Id)
    requires Sound(w) && Moves(w, s, w') && IsDead(w, family)
    ensures IsDead(w', family)
  {
    forall i | i in w.rows && w.rows[i].family == family
      ensures !IsLive(w.rows[i])
    {
      DeadHasNoLiveRow(w, family, i);
    }
    if s.Rotate? {
      var read := w.pending[s.caller];
      assert IsClaimable(w.rows, read.id, s.now) ==> read.family != family;
    }
  }

  /** A family left without a live session never has one again. */
  lemma {:induction false} DeadFamiliesStayDead(worlds: seq<World>, steps: seq<Step>, k: nat, n: nat, family: Id)
    requires IsRun(worlds, steps) && k <= n <= |steps| && IsDead(worlds[k], family)
    ensures IsDead(worlds[n], family)
    ensures forall i :: i in worlds[n].rows && worlds[n].rows[i].family == family ==>
      worlds[n].rows[i].rotatedAt.Some? || worlds[n].rows[i].revokedAt.Some?
  {
    forall i | IsDead(worlds[n], family) && i in worlds[n].rows && worlds[n].rows[i].family == family
      ensures !IsLive(worlds[n].rows[i])
    {
      DeadHasNoLiveRow(worlds[n], family, i);
    }
    if k < n {
      DeadFamiliesStayDead(worlds, steps, k, n - 1, family);
      RunIsSound(worlds, steps, n - 1);
      assert Moves(worlds[n - 1], steps[n - 1], worlds[n]);
      StepKeepsDead(worlds[n - 1], steps[n - 1], worlds[n], family);
    }
  }

  /** Presenting a token whose session is gone, rotated, revoked or past its expiry leaves its
      family dead. */
  lemma ReuseKillsTheFamily(w: World, caller: Id, now: int, w': World)
    requires Sound(w) && Moves(w, Rotate(caller, now), w')
    requires var i := w.pending[caller].id;
      i in w.rows ==> w.rows[i].rotatedAt.Some? || w.rows[i].revokedAt.Some? || w.rows[i].expiresAt < now
    ensures IsDead(w', w.pending[caller].family)
  {
  }

  // ---------------------------------------------------------------- thirty days

  /** Step k issued session i at this moment. */
  ghost predicate IssuedAt(worlds: seq<World>, steps: seq<Step>, k: nat, i: Id, at: int)
    requires |worlds| == |steps| + 1
  {
    k < |steps| && i !in worlds[k].rows && i in worlds[k + 1].rows
    && match steps[k]
       case Login(_, now) => at == now
       case Rotate(_, now) => at == now
       case _ => false
  }

  /** A step leaves expiries alone, gives new sessions thirty days, and stamps a rotation only
      until the expiry. */
  lemma StepAndExpiry(w: World, s: Step, w': World, i: Id)
    requires Sound(w) && Moves(w, s, w') && i in w'.rows
    ensures w.next <= w'.next
    ensures i in w.rows ==>
      && w'.rows[i].expiresAt == w.rows[i].expiresAt
      && (w.rows[i].rotatedAt.Some? ==> w'.rows[i].rotatedAt == w.rows[i].rotatedAt)
      && (w.rows[i].rotatedAt.None? && w'.rows[i].rotatedAt.Some? ==>
            w'.rows[i].rotatedAt.value <= w'.rows[i].expiresAt)
    ensures i !in w.rows ==>
      && (s.Login? || s.Rotate?) && i == w.next
      && w'.rows[i].expiresAt == s.now + 30 * 86400 && w'.rows[i].rotatedAt.None?
  {
  }

  /** In every run each session expires thirty days after the step that issued it, and was
      rotated, if at all, within them. */
  lemma {:induction false} SessionsLastThirtyDays(worlds: seq<World>, steps: seq<Step>, n: nat, i: Id)
    returns (k: nat, at: int)
    requires IsRun(worlds, steps) && n <= |steps| && i in worlds[n].rows
    ensures k < n && IssuedAt(worlds, steps, k, i, at)
    ensures worlds[n].rows[i].expiresAt == at + 30 * 86400
    ensures worlds[n].rows[i].rotatedAt.Some? ==> worlds[n].rows[i].rotatedAt.value <= at + 30 * 86400
  {
    RunIsSound(worlds, steps, n - 1);
    assert Moves(worlds[n - 1], steps[n - 1], worlds[n]);
    StepAndExpiry(worlds[n - 1], steps[n - 1], worlds[n], i);
    if i in worlds[n - 1].rows {
      k, at := SessionsLastThirtyDays(worlds, steps, n - 1, i);
    } else {
      k, at := n - 1, steps[n - 1].now;
    }
  }

  lemma NextGrows(w: World, s: Step, w': World)
    requires Moves(w, s, w')
    ensures w.next <= w'.next
  {
  }

  /** Session i was issued already, and expires at e if it still exists. */
  ghost predicate HasExpiry(w: World, i: Id, e: int) {
    i < w.next && (i in w.rows ==> w.rows[i].expiresAt == e)
  }

  lemma ExpiryIsKept(w: World, s: Step, w': World, i: Id, e: int)
    requires Sound(w) && Moves(w, s, w') && HasExpiry(w, i, e)
    ensures HasExpiry(w', i, e)
  {
    NextGrows(w, s, w');
    if i in w'.rows { StepAndExpiry(w, s, w', i); }
  }

  lemma {:induction false} ExpiryStays(worlds: seq<World>, steps: seq<Step>, k: nat, n: nat, i: Id, e: int)
    requires IsRun(worlds, steps) && k <= n <= |steps| && HasExpiry(worlds[k], i, e)
    ensures HasExpiry(worlds[n], i, e)
  {
    if k < n {
      ExpiryStays(worlds, steps, k, n - 1, i, e);
      RunIsSound(worlds, steps, n - 1);
      ExpiryIsKept(worlds[n - 1], steps[n - 1], worlds[n], i, e);
    }
  }

  lemma IssueSetsExpiry(worlds: seq<World>, steps: seq<Step>, k: nat, i: Id, at: int)
    requires IsRun(worlds, steps) && IssuedAt(worlds, steps, k, i, at)
    ensures HasExpiry(worlds[k + 1], i, at + 30 * 86400)
  {
    RunIsSound(worlds, steps, k);
    RunIsSound(worlds, steps, k + 1);
    StepAndExpiry(worlds[k], steps[k], worlds[k + 1], i);
  }

  /** Presenting a session more than thirty days after it was issued leaves its family dead. */
  lemma LatePresentationKillsTheFamily(worlds: seq<World>, steps: seq<Step>, n: nat, caller: Id, now: int,
                                       k: nat, at: int)
    requires IsRun(worlds, steps) && n < |steps| && steps[n] == Rotate(caller, now)
    requires caller in worlds[n].pending && IssuedAt(worlds, steps, k, worlds[n].pending[caller].id, at) && k < n
    requires now > at + 30 * 86400
    ensures IsDead(worlds[n + 1], worlds[n].pending[caller].family)
  {
    var i := worlds[n].pending[caller].id;
    IssueSetsExpiry(worlds, steps, k, i, at);
    ExpiryStays(worlds, steps, k + 1, n, i, at + 30 * 86400);
    RunIsSound(worlds, steps, n);
    assert Moves(worlds[n], steps[n], worlds[n + 1]);
    ReuseKillsTheFamily(worlds[n], caller, now, worlds[n + 1]);
  }

  /** Of two callers who read the same live token, the second to claim finds it rotated
      and takes the whole family down, including the first one's new session. */
  lemma SecondClaimantKillsTheFamily(w: World, first: Id, second: Id, now: int, later: int, w1: World, w2: World)
    requires Sound(w) && first != second && first in w.pending && second in w.pending
    requires w.pending[first].id == w.pending[second].id && w.pending[first].family == w.pending[second].family
    requires IsClaimable(w.rows, w.pending[first].id, now)
    requires Moves(w, Rotate(first, now), w1) && Moves(w1, Rotate(second, later), w2)
    ensures IsDead(w2, w.pending[first].family)
  {
    StepKeepsSound(w, Rotate(first, now), w1);
    assert !IsClaimable(w1.rows, w.pending[second].id, later);
    ReuseKillsTheFamily(w1, second, later, w2);
  }

  /** Revoking a family's live token leaves the family dead. */
  lemma LogoutOfLiveTokenKillsTheFamily(w: World, token: Id, now: int, w': World, i: Id)
    requires Sound(w) && Moves(w, Logout(token, now), w')
    requires i in w.rows && IsLive(w.rows[i]) && w.rows[i].hash == Hash(token)
    ensures IsDead(w', w.rows[i].family)
  {
    forall j | j in w'.rows && w'.rows[j].family == w.rows[i].family
      ensures !IsLive(w'.rows[j])
    {
      assert !IsLive(w.rows[j]) || j == i;
    }
  }

  // ---------------------------------------------------------------- the service

  datatype Refusal = Unauthorized

  /** Some session of an existing user has this token, was neither rotated nor revoked, and has
      not expired. */
  ghost predicate MayRotate(rows: Rows, users: set<Id>, token: Id, now: int) {
    exists i :: i in rows && rows[i].hash == Hash(token) && rows[i].rotatedAt.None? && rows[i].revokedAt.None?
      && rows[i].expiresAt >= now && rows[i].user in users
  }

  lemma ClaimableMayRotate(w: World, token: Id, now: int)
    requires TokensDistinct(w)
    ensures WithToken(w.rows, token) == {} ==> !MayRotate(w.rows, w.users, token, now)
    ensures forall i :: i in WithToken(w.rows, token) ==>
      (MayRotate(w.rows, w.users, token, now) <==> IsClaimable(w.rows, i, now) && w.rows[i].user in w.users)
  {
    assert forall i :: i in w.rows && w.rows[i].hash == Hash(token) ==> i in WithToken(w.rows, token);
  }

  class SessionStore {
    var rows: Rows
    var users: set<Id>
    var next: Id
    var pending: map<Id, Read>
    ghost var rotations: seq<Id>

    ghost function View(): World
      reads this
    {
      World(rows, users, next, pending, rotations)
    }

    method IssueTokenPair(user: Id, family: Option<Id>, now: int) returns (token: Id)
      modifies this`rows, this`next
      ensures View() == Issued(old(View()), user, family, now)
      ensures token == old(next) + 1 && old(next) < next
      ensures rows == old(rows)[old(next) := rows[old(next)]] && rows[old(next)].user == user
      ensures rows[old(next)].hash == Hash(token) && (family.Some? ==> rows[old(next)].family == family.value)
      ensures rows[old(next)].expiresAt == now + 30 * 86400
      ensures rows[old(next)].rotatedAt.None? && rows[old(next)].revokedAt.None?
    {
      var fam := next + 2;
      if family.Some? { fam := family.value; }
      token := next + 1;
      rows := rows[next := Session(user, Hash(token), fam,
                                   now + REFRESH_TOKEN_EXPIRE_DAYS * SECONDS_PER_DAY, None, None)];
      next := next + 3;
    }

    /** Look the token up. */
    method ReadSession(caller: Id, token: Id) returns (found: bool)
      modifies this`pending
      ensures found <==> WithToken(old(rows), token) != {}
      ensures if found then Moves(old(View()), ReadToken(caller, token), View()) else View() == old(View())
    {
      var matching := WithToken(rows, token);
      found := matching != {};
      if found {
        var i :| i in matching;
        pending := pending[caller := Read(i, rows[i].family, rows[i].user)];
      }
    }

    method RevokeFamily(family: Id, now: int)
      modifies this`rows
      ensures rows.Keys == old(rows).Keys
      ensures forall i :: i in rows && rows[i].family == family && old(rows)[i].revokedAt.None? ==>
        rows[i] == old(rows)[i].(revokedAt := Some(now))
      ensures forall i :: i in rows && (rows[i].family != family || old(rows)[i].revokedAt.Some?) ==>
        rows[i] == old(rows)[i]
    {
      rows := map i | i in rows ::
        if rows[i].family == family && rows[i].revokedAt.None? then rows[i].(revokedAt := Some(now)) else rows[i];
    }

    /** Claim what was read, atomically; then issue the next token or revoke the family. */
    method ClaimAndIssue(caller: Id, now: int) returns (answer: Result<Id, Refusal>)
      requires caller in pending
      modifies this
      ensures Moves(old(View()), Rotate(caller, now), View())
      ensures answer.Ok? <==>
        var i := old(pending)[caller].id;
        && i in old(rows) && old(rows)[i].rotatedAt.None? && old(rows)[i].revokedAt.None?
        && old(rows)[i].expiresAt >= now && old(pending)[caller].user in users
      ensures answer.Ok? ==> answer.value == old(next) + 1
      ensures var read := old(pending)[caller];
        && (answer.Ok? ==>
              && rows == old(rows)[read.id := old(rows)[read.id].(rotatedAt := Some(now))][old(next) := rows[old(next)]]
              && rows[old(next)].family == read.family && rows[old(next)].user == read.user
              && rows[old(next)].hash == Hash(answer.value) && rows[old(next)].expiresAt == now + 30 * 86400)
        && (answer.Err? && read.user in users ==> forall i :: i in rows ==>
              rows[i] == if old(rows)[i].family == read.family && old(rows)[i].revokedAt.None?
                         then old(rows)[i].(revokedAt := Some(now)) else old(rows)[i])
    {
      var read := pending[caller];
      pending := pending - {caller};
      var claimed := if read.id in rows && rows[read.id].rotatedAt.None? && rows[read.id].revokedAt.None?
                        && rows[read.id].expiresAt >= now then 1 else 0;
      if claimed == 1 {
        rows := rows[read.id := rows[read.id].(rotatedAt := Some(now))];
        rotations := rotations + [read.id];
      } else {
        RevokeFamily(read.family, now);
        assert rows == RevokedFamily(old(rows), read.family, now);
        return Err(Unauthorized);
      }
      if read.user !in users {
        return Err(Unauthorized);
      }
      var token := IssueTokenPair(read.user, Some(read.family), now);
      answer := Ok(token);
    }

    /** One caller rotating alone. */
    method RotateRefresh(caller: Id, token: Id, now: int) returns (answer: Result<Id, Refusal>)
      requires Sound(View())
      modifies this
      ensures Sound(View())
      ensures answer.Ok? <==> MayRotate(old(rows), users, token, now)
      ensures WithToken(old(rows), token) == {} ==> answer.Err? && rows == old(rows)
      ensures forall i :: i in WithToken(old(rows), token) ==>
        && (answer.Ok? <==> IsClaimable(old(rows), i, now) && old(rows)[i].user in users)
        && rows == Rotated(old(View()), Read(i, old(rows)[i].family, old(rows)[i].user), now).rows
    {
      ghost var before := View();
      ClaimableMayRotate(before, token, now);
      var found := ReadSession(caller, token);
      if !found {
        return Err(Unauthorized);
      }
      ghost var read := View();
      StepKeepsSound(before, ReadToken(caller, token), read);
      answer := ClaimAndIssue(caller, now);
      StepKeepsSound(read, Rotate(caller, now), View());
    }

    method RevokeSession(token: Id, now: int)
      requires TokensDistinct(View())
      modifies this`rows
      ensures rows == LoggedOut(old(rows), token, now)
      ensures forall i :: i in rows ==>
        rows[i] == if old(rows)[i].hash == Hash(token) && old(rows)[i].revokedAt.None?
                   then old(rows)[i].(revokedAt := Some(now)) else old(rows)[i]
    {
      var matching := WithToken(rows, token);
      if matching != {} {
        var i :| i in matching;
        if rows[i].revokedAt.None? {
          rows := rows[i := rows[i].(revokedAt := Some(now))];
        }
        assert forall j :: j in old(rows) && old(rows)[j].hash == Hash(token) ==> j == i;
      } else {
        assert forall j :: j in rows ==> j !in WithToken(rows, token);
      }
    }

    method RevokeAllForUser(user: Id, now: int) returns (n: nat)
      modifies this`rows
      ensures rows.Keys == old(rows).Keys
      ensures forall i :: i in rows && rows[i].user == user && old(rows)[i].revokedAt.None? ==>
        rows[i] == old(rows)[i].(revokedAt := Some(now))
      ensures forall i :: i in rows && (rows[i].user != user || old(rows)[i].revokedAt.Some?) ==>
        rows[i] == old(rows)[i]
      ensures n == |set i | i in old(rows) && old(rows)[i].user == user && old(rows)[i].revokedAt.None?|
    {
      n := |set i | i in rows && rows[i].user == user && rows[i].revokedAt.None?|;
      rows := RevokedUser(rows, user, now);
    }
  }
}
