// Agent presence: an in-memory store of heartbeats, pruned lazily when it is listed.

module Presence {

  datatype Status = Online | Busy | Offline

  /** One entry of an account's room; a room keeps its users in insertion order. */
  datatype Seen = Seen(user: int, status: Status, lastSeen: int)

  datatype Update = Update(account: int, user: int, status: Status, at: int)

  datatype State = State(rooms: map<int, seq<Seen>>, published: seq<Update>)

  const HEARTBEAT_TTL_MS: int := 90_000

  datatype Event =
    | Touch(account: int, seen: Seen)
    | Drop(account: int, user: int, at: int)
    | List(account: int, at: int)

  function Room(s: State, account: int): seq<Seen> {
    if account in s.rooms then s.rooms[account] else []
  }

  predicate Has(room: seq<Seen>, user: int) {
    exists i | 0 <= i < |room| :: room[i].user == user
  }

  function Put(room: seq<Seen>, seen: Seen): seq<Seen> {
    if room == [] then [seen]
    else if room[0].user == seen.user then [seen] + room[1..]
    else [room[0]] + Put(room[1..], seen)
  }

  function Remove(room: seq<Seen>, user: int): seq<Seen> {
    if room == [] then []
    else if room[0].user == user then room[1..]
    else [room[0]] + Remove(room[1..], user)
  }

  predicate Stale(seen: Seen, now: int) {
    now - seen.lastSeen > HEARTBEAT_TTL_MS
  }

  function Recent(room: seq<Seen>, now: int): seq<Seen> {
    if room == [] then []
    else (if Stale(room[0], now) then [] else [room[0]]) + Recent(room[1..], now)
  }

  function Next(s: State, e: Event): State {
    match e
    case Touch(account, seen) =>
      State(s.rooms[account := Put(Room(s, account), seen)],
            s.published + [Update(account, seen.user, seen.status, seen.lastSeen)])
    case Drop(account, user, at) =>
      if Has(Room(s, account), user) then
        State(s.rooms[account := Remove(Room(s, account), user)], s.published + [Update(account, user, Offline, at)])
      else s
    case List(account, at) =>
      if account in s.rooms then s.(rooms := s.rooms[account := Recent(s.rooms[account], at)]) else s
  }

  /** What listing an account at a time returns. */
  function Listed(s: State, account: int, now: int): seq<Seen> {
    Recent(Room(s, account), now)
  }

  function Run(events: seq<Event>): State {
    if events == [] then State(map[], [])
    else Next(Run(events[..|events| - 1]), events[|events| - 1])
  }

  // ---- Rooms ----

  predicate Distinct(room: seq<Seen>) {
    forall i, j | 0 <= i < j < |room| :: room[i].user != room[j].user
  }

  lemma {:induction false} PutMembers(room: seq<Seen>, seen: Seen, x: Seen)
    requires Distinct(room)
    ensures x in Put(room, seen) <==> x == seen || (x in room && x.user != seen.user)
    ensures Distinct(Put(room, seen))
  {
    if room != [] {
      PutMembers(room[1..], seen, x);
      if room[0].user != seen.user {
        forall y | y in Put(room[1..], seen) ensures y.user != room[0].user {
          PutMembers(room[1..], seen, y);
        }
      }
    }
  }

  lemma {:induction false} RemoveMembers(room: seq<Seen>, user: int, x: Seen)
    requires Distinct(room)
    ensures x in Remove(room, user) <==> x in room && x.user != user
    ensures Distinct(Remove(room, user))
  {
    if room != [] {
      RemoveMembers(room[1..], user, x);
      if room[0].user != user {
        forall y | y in Remove(room[1..], user) ensures y.user != room[0].user {
          RemoveMembers(room[1..], user, y);
        }
      }
    }
  }

  lemma {:induction false} RecentMembers(room: seq<Seen>, now: int, x: Seen)
    ensures x in Recent(room, now) <==> x in room && !Stale(x, now)
    ensures Distinct(room) ==> Distinct(Recent(room, now))
  {
    if room != [] {
      RecentMembers(room[1..], now, x);
      forall y | y in Recent(room[1..], now) ensures Distinct(room) ==> y.user != room[0].user {
        RecentMembers(room[1..], now, y);
      }
    }
  }

  lemma {:induction false} RecentSplits(a: seq<Seen>, b: seq<Seen>, now: int)
    ensures Recent(a + b, now) == Recent(a, now) + Recent(b, now)
  {
    if a == [] {
      assert a + b == b;
    } else {
      var head := if Stale(a[0], now) then [] else [a[0]];
      calc {
        Recent(a + b, now);
      == { assert (a + b)[1..] == a[1..] + b && (a + b)[0] == a[0]; }
        head + Recent(a[1..] + b, now);
      == { RecentSplits(a[1..], b, now); }
        head + (Recent(a[1..], now) + Recent(b, now));
      ==
        head + Recent(a[1..], now) + Recent(b, now);
      }
    }
  }

  lemma {:induction false} RemoveAfter(a: seq<Seen>, x: Seen, b: seq<Seen>)
    requires !Has(a, x.user)
    ensures Remove(a + [x] + b, x.user) == a + b
  {
    if a == [] {
      assert a + [x] + b == [x] + b;
      assert ([x] + b)[1..] == b && a + b == b;
    } else {
      assert a[0].user != x.user;
      forall i | 0 <= i < |a[1..]| ensures a[1..][i].user != x.user {
        assert a[1..][i] == a[i + 1];
      }
      RemoveAfter(a[1..], x, b);
      assert (a + [x] + b)[1..] == a[1..] + [x] + b;
      assert [a[0]] + (a[1..] + b) == a + b;
    }
  }

  /** One turn of the pruning loop over a room. */
  lemma PruneStep(entries: seq<Seen>, i: nat, now: int)
    requires Distinct(entries) && i < |entries|
    ensures var x, out := entries[i], Recent(entries[..i], now);
            && Recent(entries[..i + 1], now) == (if Stale(x, now) then out else out + [x])
            && out + entries[i..] == out + [x] + entries[i + 1..]
            && Remove(out + entries[i..], x.user) == out + entries[i + 1..]
  {
    var x, out := entries[i], Recent(entries[..i], now);
    assert entries[..i + 1] == entries[..i] + [x];
    RecentSplits(entries[..i], [x], now);
    assert out + entries[i..] == out + [x] + entries[i + 1..];
    forall y | y in out ensures y.user != x.user {
      RecentMembers(entries[..i], now, y);
    }
    RemoveAfter(out, x, entries[i + 1..]);
  }

  // ---- What the history says ----

  /** A later heartbeat or departure of the same user. */
  predicate Supersedes(e: Event, account: int, seen: Seen) {
    e.account == account && ((e.Touch? && e.seen.user == seen.user) || (e.Drop? && e.user == seen.user))
  }

  /** An event after which the store no longer has the entry: superseded, or listed when stale. */
  predicate Evicts(e: Event, account: int, seen: Seen) {
    Supersedes(e, account, seen) || (e.List? && e.account == account && Stale(seen, e.at))
  }

  /** The user's latest heartbeat or departure in the account is this heartbeat. */
  predicate LatestTouch(events: seq<Event>, account: int, seen: Seen) {
    exists j | 0 <= j < |events| ::
      events[j] == Touch(account, seen) && forall k | j < k < |events| :: !Supersedes(events[k], account, seen)
  }

  /** This heartbeat has been neither superseded nor pruned. */
  predicate Kept(events: seq<Event>, account: int, seen: Seen) {
    exists j | 0 <= j < |events| ::
      events[j] == Touch(account, seen) && forall k | j < k < |events| :: !Evicts(events[k], account, seen)
  }

  function Time(e: Event): int {
    if e.Touch? then e.seen.lastSeen else e.at
  }

  /** The clock never goes back, and the list comes no earlier than the last event. */
  predicate Clocked(events: seq<Event>, now: int) {
    && (forall i, j | 0 <= i < j < |events| :: Time(events[i]) <= Time(events[j]))
    && (forall i | 0 <= i < |events| :: Time(events[i]) <= now)
  }

  lemma KeptSnoc(events: seq<Event>, e: Event, account: int, seen: Seen)
    ensures Kept(events + [e], account, seen)
       <==> e == Touch(account, seen) || (Kept(events, account, seen) && !Evicts(e, account, seen))
  {
    var grown := events + [e];
    if Kept(grown, account, seen) && e != Touch(account, seen) {
      var j :| 0 <= j < |grown| && grown[j] == Touch(account, seen)
               && forall k | j < k < |grown| :: !Evicts(grown[k], account, seen);
      assert events[j] == Touch(account, seen) && !Evicts(grown[|events|], account, seen);
      assert forall k | j < k < |events| :: grown[k] == events[k];
    }
    if Kept(events, account, seen) && !Evicts(e, account, seen) {
      var j :| 0 <= j < |events| && events[j] == Touch(account, seen)
               && forall k | j < k < |events| :: !Evicts(events[k], account, seen);
      assert grown[j] == Touch(account, seen);
    }
    if e == Touch(account, seen) {
      assert grown[|events|] == e;
    }
  }

  lemma NextMembers(s: State, e: Event, account: int, x: Seen)
    requires Distinct(Room(s, account))
    ensures x in Room(Next(s, e), account)
       <==> e == Touch(account, x) || (x in Room(s, account) && !Evicts(e, account, x))
    ensures Distinct(Room(Next(s, e), account))
  {
    if e.account == account {
      match e
      case Touch(_, seen) => PutMembers(Room(s, account), seen, x);
      case Drop(_, user, _) => RemoveMembers(Room(s, account), user, x);
      case List(_, at) => RecentMembers(Room(s, account), at, x);
    }
  }

  /** After any events, a room holds each user at most once and exactly the heartbeats
      that were neither superseded nor pruned. */
  lemma {:induction false} RoomIsKept(events: seq<Event>, account: int, x: Seen)
    ensures Distinct(Room(Run(events), account))
    ensures x in Room(Run(events), account) <==> Kept(events, account, x)
  {
    if events != [] {
      var before := events[..|events| - 1];
      RoomIsKept(before, account, x);
      NextMembers(Run(before), events[|events| - 1], account, x);
      KeptSnoc(before, events[|events| - 1], account, x);
      assert before + [events[|events| - 1]] == events;
    }
  }

  /** Listing at a time returns each user at most once, and exactly those whose latest
      heartbeat or departure is a heartbeat no older than the limit, with its status
      and time, however often the store was listed and pruned before. */
  lemma ListExact(events: seq<Event>, account: int, now: int, x: Seen)
    requires Clocked(events, now)
    ensures Distinct(Listed(Run(events), account, now))
    ensures x in Listed(Run(events), account, now) <==> LatestTouch(events, account, x) && now - x.lastSeen <= 90_000
  {
    RoomIsKept(events, account, x);
    RecentMembers(Room(Run(events), account), now, x);
    if LatestTouch(events, account, x) && now - x.lastSeen <= 90_000 {
      var j :| 0 <= j < |events| && events[j] == Touch(account, x)
               && forall k | j < k < |events| :: !Supersedes(events[k], account, x);
      forall k | j < k < |events| ensures !Evicts(events[k], account, x) {
        assert Time(events[k]) <= now;
      }
      assert Kept(events, account, x);
    }
    if Kept(events, account, x) {
      var j :| 0 <= j < |events| && events[j] == Touch(account, x)
               && forall k | j < k < |events| :: !Evicts(events[k], account, x);
      assert forall k | j < k < |events| :: Evicts(events[k], account, x) || !Supersedes(events[k], account, x);
    }
  }

  lemma HasMember(room: seq<Seen>, user: int)
    ensures Has(room, user) <==> exists x | x in room :: x.user == user
  {
  }

  ghost predicate HeldUser(events: seq<Event>, account: int, user: int) {
    exists x :: Kept(events, account, x) && x.user == user
  }

  lemma HeldIsHas(events: seq<Event>, account: int, user: int)
    ensures HeldUser(events, account, user) <==> Has(Room(Run(events), account), user)
  {
    var room := Room(Run(events), account);
    HasMember(room, user);
    forall x: Seen ensures x in room <==> Kept(events, account, x) {
      RoomIsKept(events, account, x);
    }
    if Has(room, user) {
      var x :| x in room && x.user == user;
      assert Kept(events, account, x);
    }
  }

  /** A departure is announced exactly when the store still has a heartbeat of the user:
      unlike listing, announcing does depend on whether someone listed a stale entry. */
  lemma DropAnnounces(events: seq<Event>, account: int, user: int, at: int)
    ensures Next(Run(events), Drop(account, user, at)).published
         == Run(events).published
            + if HeldUser(events, account, user) then [Update(account, user, Offline, at)] else []
  {
    HeldIsHas(events, account, user);
  }

  /** What a history announces: every heartbeat as it came, every departure of a user who is held. */
  ghost function Announced(events: seq<Event>): seq<Update> {
    if events == [] then []
    else
      var before := events[..|events| - 1];
      Announced(before)
      + match events[|events| - 1]
        case Touch(account, seen) => [Update(account, seen.user, seen.status, seen.lastSeen)]
        case Drop(account, user, at) =>
          if HeldUser(before, account, user) then [Update(account, user, Offline, at)] else []
        case List(_, _) => []
  }

  /** In every history exactly these updates are published, in this order. */
  lemma {:induction false} PublishedExact(events: seq<Event>)
    ensures Run(events).published == Announced(events)
  {
    if events != [] {
      var before, last := events[..|events| - 1], events[|events| - 1];
      PublishedExact(before);
      if last.Drop? {
        DropAnnounces(before, last.account, last.user, last.at);
      }
    }
  }

  // ---- The order of a room ----

  /** The event since which the room has held the user without a break, -1 when it does not. */
  ghost function Since(events: seq<Event>, account: int, user: int): int {
    if events == [] || !HeldUser(events, account, user) then -1
    else
      var before := events[..|events| - 1];
      if HeldUser(before, account, user) then Since(before, account, user) else |events| - 1
  }

  ghost function Ranks(events: seq<Event>, account: int): int -> int {
    (user: int) => Since(events, account, user)
  }

  ghost predicate Ascending(room: seq<Seen>, rank: int -> int) {
    forall i, j | 0 <= i < j < |room| :: rank(room[i].user) < rank(room[j].user)
  }

  lemma HasTail(room: seq<Seen>, user: int)
    requires room != [] && room[0].user != user
    ensures Has(room, user) <==> Has(room[1..], user)
  {
    forall i | 0 < i < |room| ensures room[i] == room[1..][i - 1] {
    }
    if Has(room[1..], user) {
      var i :| 0 <= i < |room[1..]| && room[1..][i].user == user;
      assert room[i + 1].user == user;
    }
  }

  lemma {:induction false} PutUsers(room: seq<Seen>, seen: Seen)
    ensures var put := Put(room, seen);
            if Has(room, seen.user)
            then |put| == |room| && forall i | 0 <= i < |room| :: put[i].user == room[i].user
            else put == room + [seen]
  {
    if room != [] {
      PutUsers(room[1..], seen);
      if room[0].user != seen.user {
        HasTail(room, seen.user);
      }
      assert room == [room[0]] + room[1..];
    }
  }

  lemma AscendingTail(room: seq<Seen>, rest: seq<Seen>, rank: int -> int)
    requires room != [] && Ascending(room, rank) && Ascending(rest, rank)
    requires forall x | x in rest :: x in room[1..]
    ensures Ascending([room[0]] + rest, rank)
  {
    forall j | 0 <= j < |rest| ensures rank(room[0].user) < rank(rest[j].user) {
      assert rest[j] in room[1..];
    }
  }

  lemma {:induction false} RemoveAscending(room: seq<Seen>, user: int, rank: int -> int)
    requires Ascending(room, rank)
    ensures Ascending(Remove(room, user), rank) && forall x | x in Remove(room, user) :: x in room
  {
    if room != [] && room[0].user != user {
      RemoveAscending(room[1..], user, rank);
      AscendingTail(room, Remove(room[1..], user), rank);
    }
  }

  lemma {:induction false} RecentAscending(room: seq<Seen>, now: int, rank: int -> int)
    requires Ascending(room, rank)
    ensures Ascending(Recent(room, now), rank) && forall x | x in Recent(room, now) :: x in room
  {
    if room != [] {
      RecentAscending(room[1..], now, rank);
      AscendingTail(room, Recent(room[1..], now), rank);
    }
  }

  lemma SinceSnoc(events: seq<Event>, e: Event, account: int, user: int)
    ensures Since(events + [e], account, user)
         == if !HeldUser(events + [e], account, user) then -1
            else if HeldUser(events, account, user) then Since(events, account, user) else |events|
  {
    assert (events + [e])[..|events|] == events;
  }

  lemma {:induction false} SinceBounds(events: seq<Event>, account: int, user: int)
    ensures Since(events, account, user) < |events|
    ensures Since(events, account, user) >= 0 <==> HeldUser(events, account, user)
  {
    if events != [] {
      SinceBounds(events[..|events| - 1], account, user);
    }
  }

  /** Users that an event leaves in the room keep their rank. */
  lemma RanksStay(events: seq<Event>, e: Event, account: int, room: seq<Seen>)
    requires Ascending(room, Ranks(events, account))
    requires forall x | x in room :: HeldUser(events, account, x.user) && HeldUser(events + [e], account, x.user)
    ensures Ascending(room, Ranks(events + [e], account))
  {
    forall x | x in room ensures Since(events + [e], account, x.user) == Since(events, account, x.user) {
      SinceSnoc(events, e, account, x.user);
    }
  }

  lemma HeldInRoom(events: seq<Event>, account: int)
    ensures forall x | x in Room(Run(events), account) :: HeldUser(events, account, x.user)
  {
    forall x | x in Room(Run(events), account) ensures HeldUser(events, account, x.user) {
      RoomIsKept(events, account, x);
    }
  }

  lemma TouchHolds(events: seq<Event>, account: int, seen: Seen)
    ensures var e, room := Touch(account, seen), Room(Run(events), account);
            && Room(Run(events + [e]), account) == Put(room, seen)
            && HeldUser(events + [e], account, seen.user)
            && forall i | 0 <= i < |room| :: HeldUser(events + [e], account, room[i].user)
  {
    var e, room := Touch(account, seen), Room(Run(events), account);
    assert (events + [e])[..|events|] == events;
    HeldInRoom(events + [e], account);
    PutUsers(room, seen);
    RoomIsKept(events, account, seen);
    PutMembers(room, seen, seen);
    forall i | 0 <= i < |room| ensures HeldUser(events + [e], account, room[i].user) {
      assert Put(room, seen)[i].user == room[i].user && Put(room, seen)[i] in Put(room, seen);
    }
  }

  lemma PutAscending(room: seq<Seen>, seen: Seen, rank: int -> int)
    requires Ascending(room, rank)
    requires Has(room, seen.user) || forall i | 0 <= i < |room| :: rank(room[i].user) < rank(seen.user)
    ensures Ascending(Put(room, seen), rank)
  {
    PutUsers(room, seen);
  }

  lemma NewestIsLast(events: seq<Event>, account: int, seen: Seen, other: int)
    requires !HeldUser(events, account, seen.user) && HeldUser(events, account, other)
    requires HeldUser(events + [Touch(account, seen)], account, seen.user)
    requires HeldUser(events + [Touch(account, seen)], account, other)
    ensures var after := events + [Touch(account, seen)];
            Since(after, account, other) < Since(after, account, seen.user)
  {
    SinceSnoc(events, Touch(account, seen), account, seen.user);
    SinceSnoc(events, Touch(account, seen), account, other);
    SinceBounds(events, account, other);
  }

  lemma TouchOrders(events: seq<Event>, account: int, seen: Seen)
    requires Ascending(Room(Run(events), account), Ranks(events, account))
    ensures Ascending(Put(Room(Run(events), account), seen), Ranks(events + [Touch(account, seen)], account))
  {
    var e := Touch(account, seen);
    var room := Room(Run(events), account);
    TouchHolds(events, account, seen);
    HeldInRoom(events, account);
    RanksStay(events, e, account, room);
    HeldIsHas(events, account, seen.user);
    if !Has(room, seen.user) {
      forall i | 0 <= i < |room|
        ensures Since(events + [e], account, room[i].user) < Since(events + [e], account, seen.user)
      {
        NewestIsLast(events, account, seen, room[i].user);
      }
    }
    PutAscending(room, seen, Ranks(events + [e], account));
  }

  lemma LeavingOrders(events: seq<Event>, e: Event, account: int)
    requires Ascending(Room(Run(events), account), Ranks(events, account))
    requires !(e.Touch? && e.account == account)
    ensures Ascending(Room(Run(events + [e]), account), Ranks(events + [e], account))
  {
    var room, left := Room(Run(events), account), Room(Run(events + [e]), account);
    assert (events + [e])[..|events|] == events;
    RemoveAscending(room, if e.Drop? then e.user else 0, Ranks(events, account));
    RecentAscending(room, if e.List? then e.at else 0, Ranks(events, account));
    assert Ascending(left, Ranks(events, account)) && forall x | x in left :: x in room;
    HeldInRoom(events, account);
    HeldInRoom(events + [e], account);
    RanksStay(events, e, account, left);
  }

  /** In every history a room is in the order in which its users last came to stay: by the
      heartbeat since which the store has held each of them without a break. */
  lemma {:induction false} OrderIsSince(events: seq<Event>, account: int)
    ensures Ascending(Room(Run(events), account), Ranks(events, account))
  {
    if events != [] {
      var before, e := events[..|events| - 1], events[|events| - 1];
      OrderIsSince(before, account);
      assert before + [e] == events;
      if e.Touch? && e.account == account {
        TouchHolds(before, account, e.seen);
        TouchOrders(before, account, e.seen);
      } else {
        LeavingOrders(before, e, account);
      }
    }
  }

  /** So is what listing returns. */
  lemma ListedInOrder(events: seq<Event>, account: int, now: int)
    ensures Ascending(Listed(Run(events), account, now), Ranks(events, account))
  {
    OrderIsSince(events, account);
    RecentAscending(Room(Run(events), account), now, Ranks(events, account));
  }

  lemma TouchedSince(events: seq<Event>, account: int, seen: Seen)
    ensures Since(events + [Touch(account, seen)], account, seen.user)
         == if HeldUser(events, account, seen.user) then Since(events, account, seen.user) else |events|
  {
    KeptSnoc(events, Touch(account, seen), account, seen);
    SinceSnoc(events, Touch(account, seen), account, seen.user);
  }

  lemma OneEntryKept(events: seq<Event>, account: int, x: Seen, y: Seen)
    requires Kept(events, account, x) && Kept(events, account, y) && x.user == y.user
    ensures x == y
  {
    RoomIsKept(events, account, x);
    RoomIsKept(events, account, y);
  }

  /** An earlier listing shows in the order exactly when the entry was stale then: the user
      who comes back starts over at the end of the room instead of keeping the old place. */
  lemma PruningMovesIff(events: seq<Event>, account: int, x: Seen, at: int, again: Seen)
    requires Kept(events, account, x) && again.user == x.user
    ensures Since(events + [Touch(account, again)], account, x.user) == Since(events, account, x.user)
    ensures Since(events + [List(account, at)] + [Touch(account, again)], account, x.user)
         == if Stale(x, at) then |events| + 1 else Since(events, account, x.user)
  {
    var listed := events + [List(account, at)];
    TouchedSince(events, account, again);
    TouchedSince(listed, account, again);
    SinceSnoc(events, List(account, at), account, x.user);
    KeptSnoc(events, List(account, at), account, x);
    if y :| Kept(listed, account, y) && y.user == x.user {
      KeptSnoc(events, List(account, at), account, y);
      OneEntryKept(events, account, x, y);
    }
  }

  /** The smallest instance. */
  lemma OrderShowsPruning()
    ensures var a, b := Seen(1, Online, 0), Seen(2, Online, 80_000);
            var again := Seen(1, Online, 100_000);
            && Listed(Run([Touch(7, a), Touch(7, b), Touch(7, again)]), 7, 100_000) == [again, b]
            && Listed(Run([Touch(7, a), Touch(7, b), List(7, 100_000), Touch(7, again)]), 7, 100_000) == [b, again]
  {
    var a, b := Seen(1, Online, 0), Seen(2, Online, 80_000);
    var again := Seen(1, Online, 100_000);
    var two := [Touch(7, a), Touch(7, b)];
    assert [Touch(7, a)][..0] == [] && two[..1] == [Touch(7, a)];
    assert Room(Run([Touch(7, a)]), 7) == [a];
    assert Put([b], again) == [b, again];
    assert Room(Run(two), 7) == [a, b] by {
      assert Put([a], b) == [a] + Put([a][1..], b);
    }
    var direct := two + [Touch(7, again)];
    assert direct == [Touch(7, a), Touch(7, b), Touch(7, again)] && direct[..2] == two;
    assert Room(Run(direct), 7) == [again, b];
    var pruned := two + [List(7, 100_000)];
    assert pruned[..2] == two;
    RecentSplits([a], [b], 100_000);
    assert [a] + [b] == [a, b];
    assert Room(Run(pruned), 7) == [b];
    var back := pruned + [Touch(7, again)];
    assert back == [Touch(7, a), Touch(7, b), List(7, 100_000), Touch(7, again)] && back[..3] == pruned;
    assert Room(Run(back), 7) == [b, again];
    RecentSplits([again], [b], 100_000);
    RecentSplits([b], [again], 100_000);
    assert [again] + [b] == [again, b] && [b] + [again] == [b, again];
  }

  // ---- The store ----

  class PresenceStore {
    var rooms: map<int, seq<Seen>>
    var published: seq<Update>

    function Value(): State
      reads this
    {
      State(rooms, published)
    }

    constructor ()
      ensures Value() == Run([])
    {
      rooms, published := map[], [];
    }

    method TouchPresence(account: int, user: int, status: Status, now: int) returns (update: Update)
      modifies this
      ensures Value() == Next(old(Value()), Touch(account, Seen(user, status, now)))
      ensures update == Update(account, user, status, now)
    {
      if account !in rooms {
        rooms := rooms[account := []];
      }
      rooms := rooms[account := Put(rooms[account], Seen(user, status, now))];
      update := Update(account, user, status, now);
      published := published + [update];
    }

    method DropPresence(account: int, user: int, now: int)
      modifies this
      ensures Value() == Next(old(Value()), Drop(account, user, now))
    {
      if account !in rooms || !Has(rooms[account], user) {
        return;
      }
      rooms := rooms[account := Remove(rooms[account], user)];
      published := published + [Update(account, user, Offline, now)];
    }

    method ListPresence(account: int, now: int) returns (out: seq<Seen>)
      requires account in rooms ==> Distinct(rooms[account])
      modifies this`rooms
      ensures Value() == Next(old(Value()), List(account, now))
      ensures out == Listed(old(Value()), account, now)
    {
      out := [];
      if account !in rooms {
        return;
      }
      var room := rooms[account];
      var entries := room;
      assert [] + entries[0..] == entries;
      assert rooms == rooms[account := room];
      for i := 0 to |entries|
        invariant out == Recent(entries[..i], now)
        invariant room == out + entries[i..]
        invariant rooms == old(rooms)[account := room]
      {
        PruneStep(entries, i, now);
        if Stale(entries[i], now) {
          room := Remove(room, entries[i].user);
          rooms := rooms[account := room];
        } else {
          out := out + [entries[i]];
        }
      }
      assert entries[..|entries|] == entries && out + entries[|entries|..] == out;
    }
  }
}
