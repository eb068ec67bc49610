// Opaque tokens: refresh tokens that rotate, password resets and invitations, all in
// one table keyed by the digest of the token.

module Tokens {

  datatype Kind = Refresh | Reset | Invitation

  /** A row of the table; its key there is the digest of the token. */
  datatype Row = Row(kind: Kind, owner: nat, createdAt: int)

  type Digest = string -> string

  datatype Entry =
    | Issued(token: string, row: Row)
    | Accepted(kind: Kind, token: string, row: Row, at: int)
    | Refused(kind: Kind, token: string)
    | SignedOut(token: string)

  /** The table, and what callers have seen happen so far. */
  datatype Db = Db(rows: map<string, Row>, log: seq<Entry>)

  function Ttl(kind: Kind): int {
    match kind
    case Refresh => 30 * 24 * 60 * 60 * 1000
    case Invitation => 7 * 24 * 60 * 60 * 1000
    case Reset => 2 * 60 * 60 * 1000
  }

  predicate Expired(row: Row, kind: Kind, now: int) {
    row.createdAt + Ttl(kind) <= now
  }

  predicate Usable(row: Row, kind: Kind, now: int) {
    row.owner != 0 && row.kind == kind && !Expired(row, kind, now)
  }

  // ---- Requests ----

  /** Sign-in, sign-up, forgotten password and invitation end here; `draw` is the random token. */
  function Issue(c: Digest, db: Db, kind: Kind, user: nat, now: int, draw: string): Db {
    var row := Row(kind, user, now);
    Db(db.rows[c(draw) := row], db.log + [Issued(draw, row)])
  }

  function RefreshTokens(c: Digest, db: Db, token: string, now: int, draw: string): Db {
    var digest := c(token);
    var refused := db.(log := db.log + [Refused(Refresh, token)]);
    if digest !in db.rows then refused
    else
      var stored := db.rows[digest];
      if stored.kind != Refresh || Expired(stored, Refresh, now) then refused.(rows := db.rows - {digest})
      else if stored.owner == 0 then refused
      else
        Issue(c, Db(db.rows - {digest}, db.log + [Accepted(Refresh, token, stored, now)]),
              Refresh, stored.owner, now, draw)
  }

  function SignOut(c: Digest, db: Db, token: string): Db {
    Db(db.rows - {c(token)}, db.log + [SignedOut(token)])
  }

  function WithoutRefresh(rows: map<string, Row>, user: nat): map<string, Row> {
    map d | d in rows && !(rows[d].kind == Refresh && rows[d].owner == user) :: rows[d]
  }

  function ResetPassword(c: Digest, db: Db, token: string, now: int): Db {
    if c(token) in db.rows && Usable(db.rows[c(token)], Reset, now) then
      var stored := db.rows[c(token)];
      Db(WithoutRefresh(db.rows - {c(token)}, stored.owner), db.log + [Accepted(Reset, token, stored, now)])
    else db.(log := db.log + [Refused(Reset, token)])
  }

  function AcceptInvitation(c: Digest, db: Db, token: string, now: int): Db {
    if c(token) in db.rows && Usable(db.rows[c(token)], Invitation, now) then
      Db(db.rows - {c(token)}, db.log + [Accepted(Invitation, token, db.rows[c(token)], now)])
    else db.(log := db.log + [Refused(Invitation, token)])
  }

  datatype Request =
    | DoIssue(kind: Kind, user: nat)
    | DoRefresh(token: string)
    | DoSignOut(token: string)
    | DoReset(token: string)
    | DoAccept(token: string)

  /** A request, the time it is handled and the random token drawn for it. */
  datatype Call = Call(request: Request, now: int, draw: string)

  function Next(c: Digest, db: Db, call: Call): Db {
    match call.request
    case DoIssue(kind, user) => Issue(c, db, kind, user, call.now, call.draw)
    case DoRefresh(token) => RefreshTokens(c, db, token, call.now, call.draw)
    case DoSignOut(token) => SignOut(c, db, token)
    case DoReset(token) => ResetPassword(c, db, token, call.now)
    case DoAccept(token) => AcceptInvitation(c, db, token, call.now)
  }

  // ---- What the history says ----

  /** An event after which the row issued with `token` is no longer good for anything. */
  predicate Spends(e: Entry, token: string, row: Row) {
    match e
    case Issued(_, _) => false
    case Accepted(kind, t, r, _) => t == token || (kind == Reset && row.kind == Refresh && row.owner == r.owner)
    case Refused(kind, t) => kind == Refresh && t == token
    case SignedOut(t) => t == token
  }

  predicate IssuedAt(log: seq<Entry>, j: nat, token: string, row: Row) {
    j < |log| && log[j] == Issued(token, row)
  }

  /** `token` was issued among the first n events and nothing has spent it since. */
  predicate LiveAt(log: seq<Entry>, n: nat, token: string, row: Row)
    requires n <= |log|
  {
    exists j: nat | j < n :: IssuedAt(log, j, token, row) && forall k | j < k < n :: !Spends(log[k], token, row)
  }

  ghost predicate Live(log: seq<Entry>, token: string, row: Row) {
    LiveAt(log, |log|, token, row)
  }

  ghost predicate Injective(c: Digest) {
    forall a, b | c(a) == c(b) :: a == b
  }

  predicate Drawn(log: seq<Entry>, token: string) {
    exists j | 0 <= j < |log| :: log[j].Issued? && log[j].token == token
  }

  predicate Enabled(db: Db, call: Call) {
    && !Drawn(db.log, call.draw)
    && (call.request.DoIssue? ==> call.request.user != 0)
  }

  // ---- The invariant of every run ----

  predicate Holds(c: Digest, db: Db, token: string, row: Row) {
    c(token) in db.rows && db.rows[c(token)] == row
  }

  ghost predicate TableIsLive(c: Digest, db: Db) {
    forall token, row :: Holds(c, db, token, row) <==> Live(db.log, token, row)
  }

  predicate KeyDrawn(c: Digest, log: seq<Entry>, d: string) {
    exists j | 0 <= j < |log| :: log[j].Issued? && c(log[j].token) == d
  }

  ghost predicate KeysDrawn(c: Digest, db: Db) {
    forall d | d in db.rows :: KeyDrawn(c, db.log, d)
  }

  predicate IssuedOnce(log: seq<Entry>) {
    forall i, j | 0 <= i < j < |log| && log[i].Issued? && log[j].Issued? :: log[i].token != log[j].token
  }

  predicate Owned(log: seq<Entry>) {
    forall i | 0 <= i < |log| && log[i].Issued? :: log[i].row.owner != 0
  }

  predicate Justified(log: seq<Entry>, n: nat)
    requires n < |log|
  {
    var e := log[n];
    e.Accepted? ==> LiveAt(log, n, e.token, e.row) && Usable(e.row, e.kind, e.at)
  }

  ghost predicate AllJustified(log: seq<Entry>) {
    forall n: nat | n < |log| :: Justified(log, n)
  }

  ghost predicate Inv(c: Digest, db: Db) {
    TableIsLive(c, db) && KeysDrawn(c, db) && IssuedOnce(db.log) && Owned(db.log) && AllJustified(db.log)
  }

  lemma LiveSnoc(log: seq<Entry>, e: Entry, token: string, row: Row)
    ensures Live(log + [e], token, row)
       <==> e == Issued(token, row) || (Live(log, token, row) && !Spends(e, token, row))
  {
    var grown := log + [e];
    if Live(grown, token, row) && e != Issued(token, row) {
      var j: nat :| j < |grown| && IssuedAt(grown, j, token, row)
                    && forall k | j < k < |grown| :: !Spends(grown[k], token, row);
      assert IssuedAt(log, j, token, row) && !Spends(grown[|log|], token, row);
      assert forall k | j < k < |log| :: !Spends(log[k], token, row) by {
        assert forall k | j < k < |log| :: grown[k] == log[k];
      }
    }
    if Live(log, token, row) && !Spends(e, token, row) {
      var j: nat :| j < |log| && IssuedAt(log, j, token, row)
                    && forall k | j < k < |log| :: !Spends(log[k], token, row);
      assert IssuedAt(grown, j, token, row);
    }
    if e == Issued(token, row) {
      assert IssuedAt(grown, |log|, token, row);
    }
  }

  lemma LiveAtPrefix(log: seq<Entry>, e: Entry, n: nat, token: string, row: Row)
    requires n <= |log|
    ensures LiveAt(log, n, token, row) ==> LiveAt(log + [e], n, token, row)
  {
    if LiveAt(log, n, token, row) {
      var j: nat :| j < n && IssuedAt(log, j, token, row) && forall k | j < k < n :: !Spends(log[k], token, row);
      assert IssuedAt(log + [e], j, token, row);
    }
  }

  lemma JustifiedSnoc(log: seq<Entry>, e: Entry)
    requires AllJustified(log)
    requires e.Accepted? ==> Live(log, e.token, e.row) && Usable(e.row, e.kind, e.at)
    ensures AllJustified(log + [e])
  {
    forall n: nat | n < |log + [e]| ensures Justified(log + [e], n) {
      if n < |log| {
        assert Justified(log, n);
        LiveAtPrefix(log, e, n, log[n].token, if log[n].Accepted? then log[n].row else Row(Reset, 0, 0));
      } else if e.Accepted? {
        LiveAtPrefix(log, e, n, e.token, e.row);
      }
    }
  }

  lemma KeyDrawnSnoc(c: Digest, log: seq<Entry>, e: Entry, d: string)
    requires KeyDrawn(c, log, d) || (e.Issued? && c(e.token) == d)
    ensures KeyDrawn(c, log + [e], d)
  {
    if KeyDrawn(c, log, d) {
      var j :| 0 <= j < |log| && log[j].Issued? && c(log[j].token) == d;
      assert (log + [e])[j] == log[j];
    } else {
      assert (log + [e])[|log|] == e;
    }
  }

  /** One event keeps the invariant when the table changes as the event says. */
  lemma EventKeeps(c: Digest, db: Db, rows: map<string, Row>, e: Entry)
    requires Inv(c, db)
    requires forall d | d in rows :: d in db.rows || (e.Issued? && d == c(e.token))
    requires forall token, row :: Holds(c, Db(rows, []), token, row)
               <==> e == Issued(token, row) || (Holds(c, db, token, row) && !Spends(e, token, row))
    requires e.Issued? ==> !Drawn(db.log, e.token) && e.row.owner != 0
    requires e.Accepted? ==> Holds(c, db, e.token, e.row) && Usable(e.row, e.kind, e.at)
    ensures Inv(c, Db(rows, db.log + [e]))
  {
    var next := Db(rows, db.log + [e]);
    forall token, row ensures Holds(c, next, token, row) <==> Live(next.log, token, row) {
      LiveSnoc(db.log, e, token, row);
      assert Holds(c, next, token, row) == Holds(c, Db(rows, []), token, row);
    }
    forall d | d in rows ensures KeyDrawn(c, next.log, d) {
      KeyDrawnSnoc(c, db.log, e, d);
    }
    JustifiedSnoc(db.log, e);
  }

  lemma FreshKey(c: Digest, db: Db, token: string)
    requires Injective(c) && KeysDrawn(c, db)
    ensures c(token) in db.rows ==> Drawn(db.log, token)
  {
  }

  lemma HeldIsOwned(c: Digest, db: Db, token: string)
    requires Inv(c, db) && c(token) in db.rows
    ensures db.rows[c(token)].owner != 0
  {
    var row := db.rows[c(token)];
    assert Holds(c, db, token, row);
    assert Live(db.log, token, row);
    var j: nat :| j < |db.log| && IssuedAt(db.log, j, token, row);
    assert db.log[j].row == row;
  }

  lemma IssueKeeps(c: Digest, db: Db, kind: Kind, user: nat, now: int, draw: string)
    requires Injective(c) && Inv(c, db) && !Drawn(db.log, draw) && user != 0
    ensures Inv(c, Issue(c, db, kind, user, now, draw))
  {
    FreshKey(c, db, draw);
    EventKeeps(c, db, db.rows[c(draw) := Row(kind, user, now)], Issued(draw, Row(kind, user, now)));
  }

  lemma RefreshKeeps(c: Digest, db: Db, token: string, now: int, draw: string)
    requires Injective(c) && Inv(c, db) && !Drawn(db.log, draw)
    ensures Inv(c, RefreshTokens(c, db, token, now, draw))
  {
    if c(token) !in db.rows || !Usable(db.rows[c(token)], Refresh, now) {
      if c(token) in db.rows {
        HeldIsOwned(c, db, token);
      }
      EventKeeps(c, db, db.rows - {c(token)}, Refused(Refresh, token));
      assert c(token) !in db.rows ==> db.rows - {c(token)} == db.rows;
    } else {
      var stored := db.rows[c(token)];
      var e := Accepted(Refresh, token, stored, now);
      EventKeeps(c, db, db.rows - {c(token)}, e);
      assert !Drawn(db.log + [e], draw);
      IssueKeeps(c, Db(db.rows - {c(token)}, db.log + [e]), Refresh, stored.owner, now, draw);
    }
  }

  lemma ResetKeeps(c: Digest, db: Db, token: string, now: int)
    requires Injective(c) && Inv(c, db)
    ensures Inv(c, ResetPassword(c, db, token, now))
  {
    if c(token) in db.rows && Usable(db.rows[c(token)], Reset, now) {
      var stored := db.rows[c(token)];
      EventKeeps(c, db, WithoutRefresh(db.rows - {c(token)}, stored.owner), Accepted(Reset, token, stored, now));
    } else {
      EventKeeps(c, db, db.rows, Refused(Reset, token));
    }
  }

  lemma AcceptKeeps(c: Digest, db: Db, token: string, now: int)
    requires Injective(c) && Inv(c, db)
    ensures Inv(c, AcceptInvitation(c, db, token, now))
  {
    if c(token) in db.rows && Usable(db.rows[c(token)], Invitation, now) {
      EventKeeps(c, db, db.rows - {c(token)}, Accepted(Invitation, token, db.rows[c(token)], now));
    } else {
      EventKeeps(c, db, db.rows, Refused(Invitation, token));
    }
  }

  lemma NextKeeps(c: Digest, db: Db, call: Call)
    requires Injective(c) && Inv(c, db) && Enabled(db, call)
    ensures Inv(c, Next(c, db, call))
  {
    match call.request
    case DoIssue(kind, user) => IssueKeeps(c, db, kind, user, call.now, call.draw);
    case DoRefresh(token) => RefreshKeeps(c, db, token, call.now, call.draw);
    case DoSignOut(token) => EventKeeps(c, db, db.rows - {c(token)}, SignedOut(token));
    case DoReset(token) => ResetKeeps(c, db, token, call.now);
    case DoAccept(token) => AcceptKeeps(c, db, token, call.now);
  }

  // ---- Runs ----

  /** The database after a run from the empty one, if each draw was new. */
  ghost predicate Reaches(c: Digest, calls: seq<Call>, db: Db)
    decreases |calls|
  {
    if calls == [] then db == Db(map[], [])
    else
      var last := calls[|calls| - 1];
      exists before :: Reaches(c, calls[..|calls| - 1], before) && Enabled(before, last) && db == Next(c, before, last)
  }

  /** In every reachable state the table holds exactly the live issues, and every
      acceptance in the history was of a live, unexpired issue of its own kind. */
  lemma {:induction false} ReachableInv(c: Digest, calls: seq<Call>, db: Db)
    requires Injective(c) && Reaches(c, calls, db)
    ensures Inv(c, db)
    decreases |calls|
  {
    if calls != [] {
      var last := calls[|calls| - 1];
      var before :| Reaches(c, calls[..|calls| - 1], before) && Enabled(before, last) && db == Next(c, before, last);
      ReachableInv(c, calls[..|calls| - 1], before);
      NextKeeps(c, before, last);
    }
  }

  /** The kind of token that a request asks to use. */
  predicate Asks(request: Request, kind: Kind, token: string) {
    match kind
    case Refresh => request == DoRefresh(token)
    case Reset => request == DoReset(token)
    case Invitation => request == DoAccept(token)
  }

  predicate Accepts(before: Db, after: Db, kind: Kind, token: string, row: Row, now: int) {
    |before.log| < |after.log| && after.log[|before.log|] == Accepted(kind, token, row, now)
  }

  /** A token is accepted exactly when it was issued for that kind of use, nothing has
      spent it, and less than its lifetime has passed; it is accepted for its owner. */
  lemma AcceptedIff(c: Digest, calls: seq<Call>, db: Db, call: Call, kind: Kind, token: string, row: Row)
    requires Injective(c) && Reaches(c, calls, db) && Enabled(db, call) && Asks(call.request, kind, token)
    ensures Accepts(db, Next(c, db, call), kind, token, row, call.now)
       <==> Live(db.log, token, row) && row.kind == kind
            && call.now - row.createdAt < match kind case Refresh => 2_592_000_000
                                                     case Reset => 7_200_000
                                                     case Invitation => 604_800_000
  {
    ReachableInv(c, calls, db);
    assert Holds(c, db, token, row) <==> Live(db.log, token, row);
    if c(token) in db.rows {
      HeldIsOwned(c, db, token);
    }
  }

  /** The digest is in the table, for this kind of use, and younger than the lifetime. */
  predicate Good(db: Db, digest: string, kind: Kind, now: int, lifetime: int) {
    digest in db.rows && db.rows[digest].kind == kind && now - db.rows[digest].createdAt < lifetime
  }

  /** What each request does to the table in every reachable state: which rows it takes away, and the
      one it may add. A refresh deletes the presented row also when it refuses; a reset and an
      invitation leave it then. */
  lemma TableMeaning(c: Digest, calls: seq<Call>, db: Db, call: Call)
    requires Injective(c) && Reaches(c, calls, db) && Enabled(db, call)
    ensures var after := Next(c, db, call).rows;
            match call.request
            case DoIssue(kind, user) => after == db.rows[c(call.draw) := Row(kind, user, call.now)]
            case DoRefresh(token) =>
              if Good(db, c(token), Refresh, call.now, 2_592_000_000)
              then after == (db.rows - {c(token)})[c(call.draw) := Row(Refresh, db.rows[c(token)].owner, call.now)]
              else after == db.rows - {c(token)}
            case DoSignOut(token) => after == db.rows - {c(token)}
            case DoReset(token) =>
              if Good(db, c(token), Reset, call.now, 7_200_000)
              then forall d, row :: (d in after && after[d] == row)
                     <==> d in db.rows && db.rows[d] == row && d != c(token)
                          && !(row.kind == Refresh && row.owner == db.rows[c(token)].owner)
              else after == db.rows
            case DoAccept(token) =>
              after == if Good(db, c(token), Invitation, call.now, 604_800_000) then db.rows - {c(token)} else db.rows
  {
    ReachableInv(c, calls, db);
    match call.request
    case DoIssue(_, _) =>
    case DoSignOut(_) =>
    case DoRefresh(token) =>
      assert c(token) !in db.rows ==> db.rows - {c(token)} == db.rows;
      if c(token) in db.rows {
        HeldIsOwned(c, db, token);
      }
    case DoReset(token) =>
      if c(token) in db.rows {
        HeldIsOwned(c, db, token);
      }
    case DoAccept(token) =>
      if c(token) in db.rows {
        HeldIsOwned(c, db, token);
      }
  }

  // ---- Consequences for the history ----

  lemma IssueIsUnique(log: seq<Entry>, i: nat, j: nat, token: string, row: Row, other: Row)
    requires IssuedOnce(log) && IssuedAt(log, i, token, row) && IssuedAt(log, j, token, other)
    ensures i == j && row == other
  {
  }

  /** Nothing that spends a token happens between its issue and its acceptance. */
  lemma UnspentUntilAccepted(log: seq<Entry>, i: nat, j: nat)
    requires IssuedOnce(log) && AllJustified(log)
    requires i < j < |log| && log[j].Accepted? && Drawn(log[..i], log[j].token)
    ensures !Spends(log[i], log[j].token, log[j].row)
  {
    var e := log[j];
    assert Justified(log, j);
    var p: nat :| p < j && IssuedAt(log, p, e.token, e.row) && forall k | p < k < j :: !Spends(log[k], e.token, e.row);
    var q :| 0 <= q < |log[..i]| && log[..i][q].Issued? && log[..i][q].token == e.token;
    IssueIsUnique(log, p, q, e.token, e.row, log[q].row);
  }

  /** Every token is accepted at most once. */
  lemma AcceptedOnce(c: Digest, calls: seq<Call>, db: Db, i: nat, j: nat)
    requires Injective(c) && Reaches(c, calls, db)
    requires i < j < |db.log| && db.log[i].Accepted? && db.log[j].Accepted?
    ensures db.log[i].token != db.log[j].token
  {
    ReachableInv(c, calls, db);
    assert Justified(db.log, i);
    var p: nat :| p < i && IssuedAt(db.log, p, db.log[i].token, db.log[i].row);
    assert db.log[..i][p] == db.log[p];
    if db.log[i].token == db.log[j].token {
      UnspentUntilAccepted(db.log, i, j);
    }
  }

  /** A token issued before it is signed out is never accepted afterwards. */
  lemma NotAfterSignOut(c: Digest, calls: seq<Call>, db: Db, i: nat, j: nat)
    requires Injective(c) && Reaches(c, calls, db)
    requires i < j < |db.log| && db.log[i].SignedOut? && Drawn(db.log[..i], db.log[i].token)
    ensures !(db.log[j].Accepted? && db.log[j].token == db.log[i].token)
  {
    ReachableInv(c, calls, db);
    if db.log[j].Accepted? && db.log[j].token == db.log[i].token {
      UnspentUntilAccepted(db.log, i, j);
    }
  }

  /** A password reset revokes every refresh token its user held. */
  lemma NotAfterReset(c: Digest, calls: seq<Call>, db: Db, i: nat, j: nat)
    requires Injective(c) && Reaches(c, calls, db)
    requires i < j < |db.log| && db.log[i].Accepted? && db.log[i].kind == Reset
    requires db.log[j].Accepted? && db.log[j].kind == Refresh && Drawn(db.log[..i], db.log[j].token)
    ensures db.log[j].row.owner != db.log[i].row.owner
  {
    ReachableInv(c, calls, db);
    assert Justified(db.log, j);
    UnspentUntilAccepted(db.log, i, j);
  }

  // ---- Rotation ----

  ghost function RefreshOf(rows: map<string, Row>, user: nat): set<string> {
    set d | d in rows && rows[d].kind == Refresh && rows[d].owner == user
  }

  lemma RefreshOfRotated(rows: map<string, Row>, d: string, e: string, row: Row, user: nat)
    requires d in rows && e !in rows && rows[d].kind == row.kind == Refresh && rows[d].owner == row.owner
    ensures |RefreshOf((rows - {d})[e := row], user)| == |RefreshOf(rows, user)|
  {
    var before := RefreshOf(rows, user);
    assert RefreshOf((rows - {d})[e := row], user) == if row.owner == user then before - {d} + {e} else before;
  }

  /** Rotation leaves the number of refresh tokens of every user unchanged; a refused
      refresh takes away at most the presented token. */
  lemma RotationConserves(c: Digest, calls: seq<Call>, db: Db, call: Call, user: nat)
    requires Injective(c) && Reaches(c, calls, db) && Enabled(db, call) && call.request.DoRefresh?
    ensures var before, after := RefreshOf(db.rows, user), RefreshOf(Next(c, db, call).rows, user);
            var d := c(call.request.token);
            if d in db.rows && Usable(db.rows[d], Refresh, call.now) then |after| == |before|
            else after == before - {d}
  {
    ReachableInv(c, calls, db);
    FreshKey(c, db, call.draw);
    var d := c(call.request.token);
    if d in db.rows {
      HeldIsOwned(c, db, call.request.token);
      if Usable(db.rows[d], Refresh, call.now) {
        RefreshOfRotated(db.rows, d, c(call.draw), Row(Refresh, db.rows[d].owner, call.now), user);
      }
    }
  }

  // ---- The service ----

  class AuthService {
    const digestOf: Digest
    var accessTokens: map<string, Row>
    ghost var log: seq<Entry>

    ghost function State(): Db
      reads this
    {
      Db(accessTokens, log)
    }

    constructor (digestOf: Digest)
      ensures this.digestOf == digestOf && State() == Db(map[], [])
    {
      this.digestOf := digestOf;
      accessTokens, log := map[], [];
    }

    method IssueToken(kind: Kind, user: nat, now: int, draw: string)
      modifies this
      ensures State() == Issue(digestOf, old(State()), kind, user, now, draw)
    {
      accessTokens := accessTokens[digestOf(draw) := Row(kind, user, now)];
      log := log + [Issued(draw, Row(kind, user, now))];
    }

    method RefreshPair(token: string, now: int, draw: string) returns (ok: bool)
      modifies this
      ensures State() == RefreshTokens(digestOf, old(State()), token, now, draw)
      ensures ok <==> digestOf(token) in old(accessTokens) && Usable(old(accessTokens)[digestOf(token)], Refresh, now)
    {
      var digest := digestOf(token);
      if digest !in accessTokens || accessTokens[digest].kind != Refresh
         || Expired(accessTokens[digest], Refresh, now) {
        if digest in accessTokens {
          accessTokens := accessTokens - {digest};
        }
        log := log + [Refused(Refresh, token)];
        return false;
      }
      var stored := accessTokens[digest];
      if stored.owner == 0 {
        log := log + [Refused(Refresh, token)];
        return false;
      }
      accessTokens := accessTokens - {digest};
      log := log + [Accepted(Refresh, token, stored, now)];
      IssueToken(Refresh, stored.owner, now, draw);
      ok := true;
    }

    method Leave(token: string)
      modifies this
      ensures State() == SignOut(digestOf, old(State()), token)
    {
      accessTokens := accessTokens - {digestOf(token)};
      log := log + [SignedOut(token)];
    }

    method Reset(token: string, now: int) returns (ok: bool)
      modifies this
      ensures State() == ResetPassword(digestOf, old(State()), token, now)
      ensures ok <==> digestOf(token) in old(accessTokens)
                      && Usable(old(accessTokens)[digestOf(token)], Kind.Reset, now)
    {
      var digest := digestOf(token);
      if digest !in accessTokens || !Usable(accessTokens[digest], Kind.Reset, now) {
        log := log + [Refused(Kind.Reset, token)];
        return false;
      }
      var stored := accessTokens[digest];
      accessTokens := accessTokens - {digest};
      accessTokens := map d | d in accessTokens
                              && !(accessTokens[d].kind == Refresh && accessTokens[d].owner == stored.owner)
                       :: accessTokens[d];
      log := log + [Accepted(Kind.Reset, token, stored, now)];
      ok := true;
    }

    method Accept(token: string, now: int) returns (ok: bool)
      modifies this
      ensures State() == AcceptInvitation(digestOf, old(State()), token, now)
      ensures ok <==> digestOf(token) in old(accessTokens)
                      && Usable(old(accessTokens)[digestOf(token)], Invitation, now)
    {
      var digest := digestOf(token);
      if digest !in accessTokens || !Usable(accessTokens[digest], Invitation, now) {
        log := log + [Refused(Invitation, token)];
        return false;
      }
      log := log + [Accepted(Invitation, token, accessTokens[digest], now)];
      accessTokens := accessTokens - {digest};
      ok := true;
    }
  }
}
