/** Refresh-token rotation. A refresh is two database round trips with other requests in between: a read that
    decides, then a conditional update of the stored hash. Runs interleave any number of refreshes with logins,
    logouts and revocations. */
module RefreshSessions {
  import opened Wrappers

  /** What a signed refresh token says. iat is the issue time in whole seconds: nothing else in the
      token tells two refreshes of one session apart. */
  datatype Token = Token(userId: Uuid, email: string, sessionId: Uuid, iat: nat)

  /** SHA-256 of the signed token, taken to be injective. */
  datatype Hash = Sha256(token: Token)

  datatype Session = Session(userId: Uuid, refreshTokenHash: Hash, expiresAt: nat, revoked: bool)

  type Table = map<Uuid, Session>

  const WEEK_SECONDS := 604_800
  const WEEK_MS := 604_800_000

  function Sign(userId: Uuid, email: string, sessionId: Uuid, now: nat): Token {
    Token(userId, email, sessionId, now / 1000)
  }

  /** The signature check: only tokens handed out verify, and only for seven days. */
  predicate Verifies(issued: set<Token>, token: Token, now: nat) {
    token in issued && now / 1000 < token.iat + WEEK_SECONDS
  }

  /** What a refresh does after its read: refuse, delete the session and refuse, or try to swap. */
  datatype Decision = Reject | Drop | Swap(minted: Token)

  function Decide(t: Table, issued: set<Token>, token: Token, now: nat): Decision {
    var id := token.sessionId;
    if !Verifies(issued, token, now) then Reject
    else if id !in t || t[id].userId != token.userId || t[id].revoked then Reject
    else if t[id].refreshTokenHash != Sha256(token) then Drop
    else if t[id].expiresAt < now then Drop
    else Swap(Sign(token.userId, token.email, id, now))
  }

  /** The conditional update's where clause. */
  predicate Swappable(t: Table, consumed: Token) {
    var id := consumed.sessionId;
    id in t && t[id].refreshTokenHash == Sha256(consumed) && !t[id].revoked
  }

  function Swapped(t: Table, consumed: Token, minted: Token): Table
    requires Swappable(t, consumed)
  {
    var id := consumed.sessionId;
    t[id := t[id].(refreshTokenHash := Sha256(minted))]
  }

  /** Revoke the rows of the given ids that are in the table. */
  function RevokeIds(t: Table, ids: set<Uuid>): Table {
    map id | id in t :: if id in ids then t[id].(revoked := true) else t[id]
  }

  function IdsOfUser(t: Table, userId: Uuid): set<Uuid> {
    set id | id in t && t[id].userId == userId
  }

  // ------------------------------------------------------------------ the service

  class AuthSessionService {
    var sessions: Table

    constructor ()
      ensures sessions == map[]
    {
      sessions := map[];
    }

    method IssueUserSessionAndTokens(userId: Uuid, email: string, sessionId: Uuid, now: nat)
      returns (refreshToken: Token)
      modifies this
      ensures refreshToken == Sign(userId, email, sessionId, now)
      ensures sessions == old(sessions)[sessionId := Session(userId, Sha256(refreshToken), now + WEEK_MS, false)]
      ensures refreshToken == Token(userId, email, sessionId, now / 1000)
      ensures sessions[sessionId].expiresAt == now + 604_800_000
      // While it verifies, the token is accepted just as long as the session lasts; other sessions answer as before.
      ensures forall issued, t: nat :: Verifies(issued, refreshToken, t) ==>
                (Decide(sessions, issued, refreshToken, t).Swap? <==> t <= now + WEEK_MS)
      ensures forall issued, other: Token, t: nat :: other.sessionId != sessionId ==>
                Decide(sessions, issued, other, t) == Decide(old(sessions), issued, other, t)
    {
      var expiresAt := now + 7 * 24 * 60 * 60 * 1000;
      refreshToken := Sign(userId, email, sessionId, now);
      sessions := sessions[sessionId := Session(userId, Sha256(refreshToken), expiresAt, false)];
    }

    /** First half of a refresh, up to its write. */
    method RefreshRead(issued: set<Token>, refreshToken: Token, now: nat) returns (d: Decision)
      ensures d == Decide(sessions, issued, refreshToken, now)
      // It goes on to swap exactly when the swap would succeed at once for a token and a session that are still good;
      // it deletes only live sessions, for a token that could not be swapped or a session that has ended.
      ensures d.Swap? <==> && Verifies(issued, refreshToken, now) && Swappable(sessions, refreshToken)
                           && sessions[refreshToken.sessionId].userId == refreshToken.userId
                           && now <= sessions[refreshToken.sessionId].expiresAt
      ensures d.Swap? ==> d.minted == refreshToken.(iat := now / 1000)
      ensures d.Drop? ==> !Swappable(sessions, refreshToken) || sessions[refreshToken.sessionId].expiresAt < now
      // Refused at once: a token not handed out or over a week old, and a session gone, another user's or revoked; for
      // any other a superseded token, or one of an expired session, has the session deleted.
      ensures d.Reject? <==>
              || refreshToken !in issued || now / 1000 >= refreshToken.iat + 604_800
              || refreshToken.sessionId !in sessions
              || sessions[refreshToken.sessionId].userId != refreshToken.userId
              || sessions[refreshToken.sessionId].revoked
      ensures !d.Reject? ==>
                (d.Drop? <==>
                 || sessions[refreshToken.sessionId].refreshTokenHash != Sha256(refreshToken)
                 || sessions[refreshToken.sessionId].expiresAt < now)
    {
      if !Verifies(issued, refreshToken, now) {
        return Reject;
      }
      var tokenHash := Sha256(refreshToken);
      if refreshToken.sessionId !in sessions {
        return Reject;
      }
      var session := sessions[refreshToken.sessionId];
      if session.userId != refreshToken.userId || session.revoked {
        return Reject;
      }
      if session.refreshTokenHash != tokenHash {
        return Drop;
      }
      if session.expiresAt < now {
        return Drop;
      }
      return Swap(Sign(refreshToken.userId, refreshToken.email, refreshToken.sessionId, now));
    }

    /** Second half of a refresh that decided to swap. */
    method RefreshSwap(refreshToken: Token, newRefreshToken: Token) returns (swapped: bool)
      modifies this
      ensures swapped <==> Swappable(old(sessions), refreshToken)
      ensures sessions == if swapped then Swapped(old(sessions), refreshToken, newRefreshToken) else old(sessions)
      ensures var id := refreshToken.sessionId;
              && (swapped <==>
                  && id in old(sessions) && !old(sessions)[id].revoked
                  && old(sessions)[id].refreshTokenHash == Sha256(refreshToken))
              && (swapped ==>
                    sessions == old(sessions)[id := old(sessions)[id].(refreshTokenHash := Sha256(newRefreshToken))])
      // From now on the new token, and no other of its session, can be swapped; other sessions are as before.
      ensures swapped ==> forall t: Token :: t.sessionId == refreshToken.sessionId ==>
                (Swappable(sessions, t) <==> t == newRefreshToken)
      ensures forall t: Token :: t.sessionId != refreshToken.sessionId ==>
                (Swappable(sessions, t) <==> Swappable(old(sessions), t))
    {
      var count := 0;
      var id := refreshToken.sessionId;
      if id in sessions && sessions[id].refreshTokenHash == Sha256(refreshToken) && !sessions[id].revoked {
        sessions := sessions[id := sessions[id].(refreshTokenHash := Sha256(newRefreshToken))];
        count := count + 1;
      }
      swapped := count == 1;
    }

    /** Second half of a refresh that decided to delete the session. */
    method RefreshDrop(sessionId: Uuid)
      modifies this
      ensures sessions == old(sessions) - {sessionId}
      // No token of the session can be swapped any more, and every other token can that could.
      ensures forall t :: Swappable(sessions, t) <==> Swappable(old(sessions), t) && t.sessionId != sessionId
    {
      sessions := sessions - {sessionId};
    }

    method Logout(sessionId: Uuid)
      modifies this
      ensures sessions == RevokeIds(old(sessions), {sessionId})
      ensures sessions == if sessionId in old(sessions)
                          then old(sessions)[sessionId := old(sessions)[sessionId].(revoked := true)]
                          else old(sessions)
    {
      if sessionId in sessions && !sessions[sessionId].revoked {
        sessions := sessions[sessionId := sessions[sessionId].(revoked := true)];
      }
    }

    method RevokeSession(userId: Uuid, sessionId: Uuid) returns (found: bool)
      modifies this
      ensures found <==> && sessionId in old(sessions) && old(sessions)[sessionId].userId == userId
                         && !old(sessions)[sessionId].revoked
      ensures sessions == RevokeIds(old(sessions), {sessionId} * IdsOfUser(old(sessions), userId))
      ensures sessions == if found then old(sessions)[sessionId := old(sessions)[sessionId].(revoked := true)]
                          else old(sessions)
    {
      found := sessionId in sessions && sessions[sessionId].userId == userId && !sessions[sessionId].revoked;
      if found {
        sessions := sessions[sessionId := sessions[sessionId].(revoked := true)];
      }
    }

    /** revokeAllSessions, and with it the revocation in resetPassword (keep is None) and in changePassword. */
    method RevokeAllSessions(userId: Uuid, keep: Option<Uuid>) returns (revoked: nat)
      modifies this
      ensures sessions == RevokeIds(old(sessions), IdsOfUser(old(sessions), userId) - KeptId(keep))
      ensures revoked == |ActiveIds(old(sessions), userId, keep)|
      ensures sessions.Keys == old(sessions).Keys
      ensures forall id :: id in sessions ==>
                sessions[id] == if old(sessions)[id].userId == userId && Some(id) != keep
                                then old(sessions)[id].(revoked := true)
                                else old(sessions)[id]
    {
      var ids := ActiveIds(sessions, userId, keep);
      sessions := RevokeIds(sessions, ids);
      revoked := |ids|;
    }
  }

  /** The user's unrevoked sessions other than the kept one. */
  function ActiveIds(t: Table, userId: Uuid, keep: Option<Uuid>): (ids: set<Uuid>)
    ensures forall id :: id in ids <==> id in t && t[id].userId == userId && !t[id].revoked && keep != Some(id)
  {
    set id | id in t && t[id].userId == userId && !t[id].revoked && Some(id) != keep
  }

  function KeptId(keep: Option<Uuid>): set<Uuid> {
    if keep.Some? then {keep.value} else {}
  }

  // ------------------------------------------------------------- interleaved runs

  /** A refresh between its read and its write. */
  datatype Request =
    | Swapping(consumed: Token, minted: Token, readAt: nat)
    | Dropping(sessionId: Uuid)

  datatype Opening = Opening(first: Token, at: nat)

  /** One successful refresh. */
  datatype Link = Link(consumed: Token, produced: Token, readAt: nat)

  datatype State = State(
    now: nat,                        // milliseconds
    sessions: Table,
    issued: set<Token>,              // tokens handed to clients
    requests: map<nat, Request>,     // refreshes in flight
    openings: map<Uuid, Opening>,      // how each session id was opened
    links: map<Uuid, seq<Link>>)     // the successful refreshes of each session, in order

  datatype Step =
    | Tick(ms: nat)
    | Login(userId: Uuid, email: string, sessionId: Uuid)
    | Read(request: nat, token: Token)
    | Finish(request: nat)
    | Logout(sessionId: Uuid)
    | Revoke(userId: Uuid, sessionId: Uuid)
    | RevokeAll(userId: Uuid, keep: Option<Uuid>)

  const INITIAL := State(0, map[], {}, map[], map[], map[])

  /** A step that cannot happen (a session id drawn twice, an unknown request) changes nothing. */
  function Apply(s: State, step: Step): State {
    match step
    case Tick(ms) => s.(now := s.now + ms)
    case Login(userId, email, id) =>
      if id in s.openings then s
      else
        var token := Sign(userId, email, id, s.now);
        s.(sessions := s.sessions[id := Session(userId, Sha256(token), s.now + WEEK_MS, false)],
           issued := s.issued + {token},
           openings := s.openings[id := Opening(token, s.now)],
           links := s.links[id := []])
    case Read(request, token) =>
      if request in s.requests then s
      else (
        match Decide(s.sessions, s.issued, token, s.now)
        case Reject => s
        case Drop => s.(requests := s.requests[request := Dropping(token.sessionId)])
        case Swap(minted) => s.(requests := s.requests[request := Swapping(token, minted, s.now)]))
    case Finish(request) =>
      if request !in s.requests then s
      else
        var rest := s.(requests := s.requests - {request});
        (match s.requests[request]
         case Dropping(id) => rest.(sessions := s.sessions - {id})
         case Swapping(consumed, minted, readAt) =>
           var id := consumed.sessionId;
           if Swappable(s.sessions, consumed) && id in s.links then
             rest.(sessions := Swapped(s.sessions, consumed, minted),
                   issued := s.issued + {minted},
                   links := s.links[id := s.links[id] + [Link(consumed, minted, readAt)]])
           else rest)
    case Logout(id) => s.(sessions := RevokeIds(s.sessions, {id}))
    case Revoke(userId, id) => s.(sessions := RevokeIds(s.sessions, {id} * IdsOfUser(s.sessions, userId)))
    case RevokeAll(userId, keep) => s.(sessions := RevokeIds(s.sessions, IdsOfUser(s.sessions, userId) - KeptId(keep)))
  }

  function Run(s: State, steps: seq<Step>): State
    decreases |steps|
  {
    if steps == [] then s else Run(Apply(s, steps[0]), steps[1..])
  }

  // ------------------------------------------------------------------- the chain

  /** The token the client of a session should hold: the last one produced, or the one from login. */
  function Tip(o: Opening, links: seq<Link>): Token {
    if links == [] then o.first else links[|links| - 1].produced
  }

  /** A refresh read within seven days of login and of its token's issue, that mints the same claims stamped with
      the second of the read. */
  predicate GoodMint(o: Opening, consumed: Token, minted: Token, readAt: nat) {
    && minted == consumed.(iat := readAt / 1000)
    && consumed.iat <= readAt / 1000 < consumed.iat + WEEK_SECONDS
    && readAt <= o.at + WEEK_MS
  }

  /** Each success consumes the token produced by the one before, the first the token from login. */
  ghost predicate Chain(o: Opening, links: seq<Link>) {
    links != [] ==>
      var front, last := links[..|links| - 1], links[|links| - 1];
      && Chain(o, front)
      && last.consumed == Tip(o, front)
      && GoodMint(o, last.consumed, last.produced, last.readAt)
  }

  ghost predicate GoodRequest(now: nat, openings: map<Uuid, Opening>, r: Request) {
    r.Swapping? ==>
      && r.consumed.sessionId in openings
      && r.readAt <= now
      && GoodMint(openings[r.consumed.sessionId], r.consumed, r.minted, r.readAt)
  }

  ghost predicate GoodHistory(now: nat, id: Uuid, o: Opening, links: seq<Link>) {
    && o.first.sessionId == id
    && o.at <= now
    && Chain(o, links)
  }

  ghost predicate GoodRow(o: Opening, links: seq<Link>, row: Session) {
    && row.refreshTokenHash == Sha256(Tip(o, links))
    && row.expiresAt == o.at + WEEK_MS
    && row.userId == o.first.userId
  }

  ghost predicate Inv(s: State) {
    && s.openings.Keys == s.links.Keys
    && s.sessions.Keys <= s.openings.Keys
    && (forall id :: id in s.openings ==> GoodHistory(s.now, id, s.openings[id], s.links[id]))
    && (forall id :: id in s.sessions ==> GoodRow(s.openings[id], s.links[id], s.sessions[id]))
    && (forall t :: t in s.issued ==> t.iat <= s.now / 1000)
    && (forall r :: r in s.requests ==> GoodRequest(s.now, s.openings, s.requests[r]))
  }

  lemma RevokeKeepsInv(s: State, ids: set<Uuid>)
    requires Inv(s)
    ensures Inv(s.(sessions := RevokeIds(s.sessions, ids)))
  {
    var s' := s.(sessions := RevokeIds(s.sessions, ids));
    forall id | id in s'.sessions ensures GoodRow(s'.openings[id], s'.links[id], s'.sessions[id]) {
      assert GoodRow(s.openings[id], s.links[id], s.sessions[id]);
    }
  }

  lemma LoginKeepsInv(s: State, userId: Uuid, email: string, id: Uuid)
    requires Inv(s) && id !in s.openings
    ensures Inv(Apply(s, Login(userId, email, id)))
  {
    var s' := Apply(s, Login(userId, email, id));
    forall j | j in s'.openings ensures GoodHistory(s'.now, j, s'.openings[j], s'.links[j]) {
      assert j != id ==> GoodHistory(s.now, j, s.openings[j], s.links[j]);
    }
    forall j | j in s'.sessions ensures GoodRow(s'.openings[j], s'.links[j], s'.sessions[j]) {
      assert j != id ==> GoodRow(s.openings[j], s.links[j], s.sessions[j]);
    }
    forall r | r in s'.requests ensures GoodRequest(s'.now, s'.openings, s'.requests[r]) {
      assert GoodRequest(s.now, s.openings, s.requests[r]);
    }
  }

  lemma ReadKeepsInv(s: State, request: nat, token: Token)
    requires Inv(s)
    ensures Inv(Apply(s, Read(request, token)))
  {
    var id := token.sessionId;
    if Decide(s.sessions, s.issued, token, s.now).Swap? {
      assert GoodRow(s.openings[id], s.links[id], s.sessions[id]);
    }
  }

  /** The state after a swap that succeeded. */
  function Linked(s: State, link: Link): State
    requires link.consumed.sessionId in s.links && Swappable(s.sessions, link.consumed)
  {
    var id := link.consumed.sessionId;
    s.(sessions := Swapped(s.sessions, link.consumed, link.produced),
       issued := s.issued + {link.produced},
       links := s.links[id := s.links[id] + [link]])
  }

  lemma LinkedHistories(s: State, link: Link)
    requires Inv(s)
    requires link.consumed.sessionId in s.links && Swappable(s.sessions, link.consumed)
    requires GoodMint(s.openings[link.consumed.sessionId], link.consumed, link.produced, link.readAt)
    ensures forall j :: j in s.openings ==> GoodHistory(s.now, j, s.openings[j], Linked(s, link).links[j])
  {
    var id := link.consumed.sessionId;
    assert GoodRow(s.openings[id], s.links[id], s.sessions[id]);
    forall j | j in s.openings ensures GoodHistory(s.now, j, s.openings[j], Linked(s, link).links[j]) {
      assert GoodHistory(s.now, j, s.openings[j], s.links[j]);
      if j == id {
        ChainGrows(s.openings[id], s.links[id], link);
      }
    }
  }

  lemma LinkedRows(s: State, link: Link)
    requires Inv(s)
    requires link.consumed.sessionId in s.links && Swappable(s.sessions, link.consumed)
    ensures forall j :: j in s.sessions ==>
              GoodRow(s.openings[j], Linked(s, link).links[j], Linked(s, link).sessions[j])
  {
    forall j | j in s.sessions ensures GoodRow(s.openings[j], Linked(s, link).links[j], Linked(s, link).sessions[j]) {
      assert GoodRow(s.openings[j], s.links[j], s.sessions[j]);
    }
  }

  lemma SwapKeepsInv(s: State, request: nat)
    requires Inv(s) && request in s.requests && s.requests[request].Swapping?
    ensures Inv(Apply(s, Finish(request)))
  {
    var r := s.requests[request];
    assert GoodRequest(s.now, s.openings, r);
    if Swappable(s.sessions, r.consumed) {
      var link := Link(r.consumed, r.minted, r.readAt);
      LinkedHistories(s, link);
      LinkedRows(s, link);
      assert Apply(s, Finish(request)) == Linked(s, link).(requests := s.requests - {request});
    }
  }

  lemma ChainGrows(o: Opening, links: seq<Link>, link: Link)
    requires Chain(o, links)
    requires link.consumed == Tip(o, links) && GoodMint(o, link.consumed, link.produced, link.readAt)
    ensures Chain(o, links + [link]) && Tip(o, links + [link]) == link.produced
  {
    assert (links + [link])[..|links|] == links;
  }

  lemma StepKeepsInv(s: State, step: Step)
    requires Inv(s)
    ensures Inv(Apply(s, step))
  {
    match step {
      case Tick(ms) =>
        forall r | r in s.requests ensures GoodRequest(s.now + ms, s.openings, s.requests[r]) {
          assert GoodRequest(s.now, s.openings, s.requests[r]);
        }
      case Login(userId, email, id) =>
        if id !in s.openings {
          LoginKeepsInv(s, userId, email, id);
        }
      case Read(request, token) => ReadKeepsInv(s, request, token);
      case Finish(request) =>
        if request in s.requests && s.requests[request].Swapping? {
          SwapKeepsInv(s, request);
        }
      case Logout(id) => RevokeKeepsInv(s, {id});
      case Revoke(userId, id) => RevokeKeepsInv(s, {id} * IdsOfUser(s.sessions, userId));
      case RevokeAll(userId, keep) => RevokeKeepsInv(s, IdsOfUser(s.sessions, userId) - KeptId(keep));
    }
  }

  lemma {:induction false} RunKeepsInv(s: State, steps: seq<Step>)
    requires Inv(s)
    ensures Inv(Run(s, steps))
    decreases |steps|
  {
    if steps != [] {
      StepKeepsInv(s, steps[0]);
      RunKeepsInv(Apply(s, steps[0]), steps[1..]);
    }
  }

  /** Success i consumes the token produced by the success before it, the first one the token from login. */
  ghost predicate Follows(o: Opening, links: seq<Link>, i: nat)
    requires i < |links|
  {
    && links[i].consumed == (if i == 0 then o.first else links[i - 1].produced)
    && GoodMint(o, links[i].consumed, links[i].produced, links[i].readAt)
  }

  lemma {:induction false} ChainAt(o: Opening, links: seq<Link>, i: nat)
    requires Chain(o, links) && i < |links|
    ensures Follows(o, links, i)
    decreases |links|
  {
    if i < |links| - 1 {
      ChainAt(o, links[..|links| - 1], i);
    }
  }

  /** In every interleaving the successful refreshes of a session form one chain: the first consumes the token from
      login, every other the token produced by the one before; each read fell within seven days of login; and a
      session that still exists stores the hash of the chain's last token. */
  lemma RefreshesFormOneChain(steps: seq<Step>, id: Uuid)
    requires id in Run(INITIAL, steps).openings
    ensures var s := Run(INITIAL, steps);
            && id in s.links
            && (forall i :: 0 <= i < |s.links[id]| ==> Follows(s.openings[id], s.links[id], i))
            && (id in s.sessions ==> s.sessions[id].refreshTokenHash == Sha256(Tip(s.openings[id], s.links[id])))
  {
    RunKeepsInv(INITIAL, steps);
    var s := Run(INITIAL, steps);
    assert GoodHistory(s.now, id, s.openings[id], s.links[id]);
    if id in s.sessions {
      assert GoodRow(s.openings[id], s.links[id], s.sessions[id]);
    }
    forall i | 0 <= i < |s.links[id]| ensures Follows(s.openings[id], s.links[id], i) {
      ChainAt(s.openings[id], s.links[id], i);
    }
  }

  // ------------------------------------------------------------------ single use

  ghost predicate ConsumedOnce(links: seq<Link>) {
    forall i, j :: 0 <= i < j < |links| ==> links[i].consumed != links[j].consumed
  }

  /** Every success but the last was read in a later second than its token was issued in. */
  ghost predicate LaterSecond(links: seq<Link>) {
    forall i :: 0 <= i < |links| - 1 ==> links[i].consumed.iat < links[i].readAt / 1000
  }

  lemma {:induction false} LaterLinks(o: Opening, links: seq<Link>, i: nat, j: nat)
    requires Chain(o, links) && LaterSecond(links) && i <= j < |links|
    ensures links[i].consumed.iat <= links[j].consumed.iat
    ensures i < j ==> links[i].consumed.iat < links[j].consumed.iat
    decreases j
  {
    if i < j {
      ChainAt(o, links, j - 1);
      ChainAt(o, links, j);
      LaterLinks(o, links, i, j - 1);
    }
  }

  /** No token of a session is accepted twice exactly when no token is refreshed again within the second
      of its own issue: the token minted then is the same token, and so is its hash. */
  lemma SingleUseIffLaterSecond(steps: seq<Step>, id: Uuid)
    requires id in Run(INITIAL, steps).openings
    ensures var s := Run(INITIAL, steps);
            id in s.links && (ConsumedOnce(s.links[id]) <==> LaterSecond(s.links[id]))
  {
    RunKeepsInv(INITIAL, steps);
    var s := Run(INITIAL, steps);
    assert GoodHistory(s.now, id, s.openings[id], s.links[id]);
    var links := s.links[id];
    if ConsumedOnce(links) {
      forall i | 0 <= i < |links| - 1 ensures links[i].consumed.iat < links[i].readAt / 1000 {
        assert links[i].consumed != links[i + 1].consumed;
        ChainAt(s.openings[id], links, i);
        ChainAt(s.openings[id], links, i + 1);
      }
    }
    if LaterSecond(links) {
      forall i, j | 0 <= i < j < |links| ensures links[i].consumed != links[j].consumed {
        LaterLinks(s.openings[id], links, i, j);
      }
    }
  }

  /** Log in and refresh twice with the login token, all within one second: both refreshes succeed. */
  lemma SameSecondReuse()
    ensures var token := Token(1, "a@b.c", 7, 0);
            var s := Run(INITIAL, [Login(1, "a@b.c", 7), Read(0, token), Finish(0), Read(1, token), Finish(1)]);
            7 in s.links && s.links[7] == [Link(token, token, 0), Link(token, token, 0)]
  {
    var token := Token(1, "a@b.c", 7, 0);
    var s1 := Apply(INITIAL, Login(1, "a@b.c", 7));
    var s2 := Apply(s1, Read(0, token));
    assert s2.requests == map[0 := Swapping(token, token, 0)];
    var s3 := Apply(s2, Finish(0));
    var s4 := Apply(s3, Read(1, token));
    assert s4.requests == map[1 := Swapping(token, token, 0)];
    var s5 := Apply(s4, Finish(1));
    assert s5.links[7] == [Link(token, token, 0), Link(token, token, 0)];
    RunFive(INITIAL, Login(1, "a@b.c", 7), Read(0, token), Finish(0), Read(1, token), Finish(1));
  }

  lemma RunFive(s: State, a: Step, b: Step, c: Step, d: Step, e: Step)
    ensures Run(s, [a, b, c, d, e]) == Apply(Apply(Apply(Apply(Apply(s, a), b), c), d), e)
  {
    assert [a, b, c, d, e][1..] == [b, c, d, e] && [b, c, d, e][1..] == [c, d, e];
    assert [c, d, e][1..] == [d, e] && [d, e][1..] == [e];
    var s3 := Apply(Apply(Apply(s, a), b), c);
    assert Run(s3, [d, e]) == Run(Apply(s3, d), [e]) == Run(Apply(Apply(s3, d), e), []);
    assert Run(Apply(s, a), [b, c, d, e]) == Run(Apply(Apply(s, a), b), [c, d, e]) == Run(s3, [d, e]);
  }

  // -------------------------------------------------------- one refresh on its own

  lemma {:induction false} TipClaims(o: Opening, links: seq<Link>)
    requires Chain(o, links)
    ensures Tip(o, links) == o.first.(iat := Tip(o, links).iat)
    decreases |links|
  {
    if links != [] {
      TipClaims(o, links[..|links| - 1]);
    }
  }

  /** With nothing in between, a refresh succeeds exactly for the newest token of a session that is neither deleted
      nor revoked, while both the token and the session are within their seven days. */
  lemma UninterruptedRefresh(s: State, request: nat, token: Token)
    requires Inv(s) && request !in s.requests && token.sessionId in s.openings
    ensures var id := token.sessionId;
            var s' := Apply(Apply(s, Read(request, token)), Finish(request));
            && id in s.links && id in s'.links
            && (s'.links[id] == s.links[id] + [Link(token, Sign(token.userId, token.email, id, s.now), s.now)] <==>
                && id in s.sessions && !s.sessions[id].revoked
                && token == Tip(s.openings[id], s.links[id])
                && Verifies(s.issued, token, s.now)
                && s.now <= s.openings[id].at + WEEK_MS)
  {
    var id := token.sessionId;
    assert GoodHistory(s.now, id, s.openings[id], s.links[id]);
    TipClaims(s.openings[id], s.links[id]);
    if id in s.sessions {
      assert GoodRow(s.openings[id], s.links[id], s.sessions[id]);
    }
  }

  // ------------------------------------------------------------ dead stays dead

  /** Once opened, now revoked or deleted. */
  ghost predicate Dead(s: State, id: Uuid) {
    id in s.openings && (id in s.sessions ==> s.sessions[id].revoked)
  }

  lemma DeadStep(s: State, step: Step, id: Uuid)
    requires Dead(s, id) && id in s.links
    ensures var s' := Apply(s, step); Dead(s', id) && id in s'.links && s'.links[id] == s.links[id]
  {
  }

  /** Once a session is revoked or deleted no later swap on it succeeds, whatever was read before. */
  lemma {:induction false} DeadForever(s: State, steps: seq<Step>, id: Uuid)
    requires Dead(s, id) && id in s.links
    ensures var s' := Run(s, steps); Dead(s', id) && id in s'.links && s'.links[id] == s.links[id]
    decreases |steps|
  {
    if steps != [] {
      DeadStep(s, steps[0], id);
      DeadForever(Apply(s, steps[0]), steps[1..], id);
    }
  }

  /** Revocations, deletions of superseded or expired sessions, and logouts do kill. */
  lemma KillingSteps(s: State, id: Uuid)
    requires Inv(s) && id in s.openings
    ensures id in s.links
    ensures Dead(Apply(s, Logout(id)), id)
    ensures Dead(Apply(s, Revoke(s.openings[id].first.userId, id)), id)
    ensures forall keep :: keep != Some(id) ==> Dead(Apply(s, RevokeAll(s.openings[id].first.userId, keep)), id)
    ensures forall r :: r in s.requests && s.requests[r] == Dropping(id) ==> Dead(Apply(s, Finish(r)), id)
  {
    if id in s.sessions {
      assert GoodRow(s.openings[id], s.links[id], s.sessions[id]);
    }
  }

  lemma {:induction false} DroppingRun(s: State, steps: seq<Step>, request: nat, id: Uuid)
    requires id in s.openings
    requires (request in s.requests && s.requests[request] == Dropping(id)) || id !in s.sessions
    requires Finish(request) in steps || id !in s.sessions
    ensures id !in Run(s, steps).sessions
    decreases |steps|
  {
    if steps != [] {
      assert steps[0] == Finish(request) || Finish(request) in steps[1..] || id !in s.sessions;
      DroppingRun(Apply(s, steps[0]), steps[1..], request, id);
    }
  }

  /** Refreshing a live session with a token other than its newest deletes the session as soon as that refresh
      makes its write, whatever else happens in between. */
  lemma SupersededTokenKillsSession(s: State, request: nat, token: Token, steps: seq<Step>)
    requires Inv(s) && request !in s.requests && token.sessionId in s.openings
    requires Verifies(s.issued, token, s.now)
    requires token.sessionId in s.sessions && !s.sessions[token.sessionId].revoked
    requires token.userId == s.sessions[token.sessionId].userId
    requires token != Tip(s.openings[token.sessionId], s.links[token.sessionId])
    requires Finish(request) in steps
    ensures token.sessionId !in Run(Apply(s, Read(request, token)), steps).sessions
  {
    var id := token.sessionId;
    assert GoodRow(s.openings[id], s.links[id], s.sessions[id]);
    DroppingRun(Apply(s, Read(request, token)), steps, request, token.sessionId);
  }
}
