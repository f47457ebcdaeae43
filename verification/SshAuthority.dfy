/** Who gets a stream through the SSH gateway: exactly the tunnels that show a lease's own
    scope and token while it lasts, over every run and with every request remembered. */
module SshAuthority {
  import opened Basics
  import opened SshLeases

  // ---- One step --------------------------------------------------------------

  /** The request shows the lease's workspace, wallet, mode and token. */
  predicate Shows(lease: Lease, t: TunnelRequest) {
    lease.workspace == t.workspace && lease.wallet == t.wallet && lease.mode == t.mode && lease.tokenHash == t.tokenHash
  }

  predicate InForce(g: Gateway, id: LeaseId) { id in g.table && id in g.records && g.now < g.records[id].validBefore }

  predicate HasRoom(limits: Limits, g: Gateway, id: LeaseId)
    requires id in g.records
  {
    |g.records[id].active| + g.records[id].pending < limits.maxConnections
  }

  /** A tunnel request starts a connect exactly when its lease is in force, it shows the
      lease's scope and token, and a connection is free; it then counts one connection. Of
      an expired lease it only completes the revocation, and else it changes nothing. */
  lemma ConnectsExactly(limits: Limits, g: Gateway, call: CallId, t: TunnelRequest)
    requires call !in g.connecting
    ensures var h := Next(limits, g, TunnelBegins(call, t));
      && (call in h.connecting <==> InForce(g, t.lease) && Shows(g.records[t.lease], t) && HasRoom(limits, g, t.lease))
      && (if call in h.connecting then
            h == g.(connecting := g.connecting[call := t.lease],
                    records := g.records[t.lease := g.records[t.lease].(pending := g.records[t.lease].pending + 1)])
          else if t.lease in g.table && t.lease in g.records && g.now >= g.records[t.lease].validBefore then
            h == RevokeAll(g, {t.lease})
          else h == g)
  {
  }

  /** A refusal says what is missing: first the lease, then the scope, then the token. */
  lemma RefusedFor(limits: Limits, g: Gateway, t: TunnelRequest)
    ensures var refusal := TunnelRefusal(limits, g, t);
      && (refusal == Some(ExpiredOrRevoked) <==> !InForce(g, t.lease))
      && (refusal == Some(InvalidToken) <==>
            && InForce(g, t.lease) && !Shows(g.records[t.lease], t)
            && Shows(g.records[t.lease], t.(tokenHash := g.records[t.lease].tokenHash)))
      && (refusal == Some(ConnectionLimit) <==>
            InForce(g, t.lease) && Shows(g.records[t.lease], t) && !HasRoom(limits, g, t.lease))
      && (refusal.None? <==> InForce(g, t.lease) && Shows(g.records[t.lease], t) && HasRoom(limits, g, t.lease))
      && (refusal.Some? ==> refusal.value in {ExpiredOrRevoked, ScopeMismatch, InvalidToken, ConnectionLimit})
  {
  }

  /** A completed connect hands its stream out exactly when its lease is in force still. */
  lemma HandsOutExactly(limits: Limits, g: Gateway, call: CallId, stream: Stream)
    requires GatewayOk(limits, g) && call in g.connecting && stream !in g.streams
    ensures var h := Next(limits, g, Connected(call, stream));
      && (stream in h.open <==> InForce(g, g.connecting[call]))
      && h.open - {stream} == g.open && call !in h.connecting && h.table == g.table
      && (stream in h.open ==> Holds(h, g.connecting[call], stream))
  {
    OpenStreamsAreKnown(limits, g);
    if InForce(g, g.connecting[call]) { HandedToItsLease(limits, g, call, stream); }
  }

  lemma HandedToItsLease(limits: Limits, g: Gateway, call: CallId, stream: Stream)
    requires GatewayOk(limits, g) && call in g.connecting && stream !in g.streams && InForce(g, g.connecting[call])
    ensures Holds(Next(limits, g, Connected(call, stream)), g.connecting[call], stream)
  {
  }

  lemma OpenStreamsAreKnown(limits: Limits, g: Gateway)
    requires GatewayOk(limits, g)
    ensures g.open <= g.streams
  {
    forall s | s in g.open ensures s in g.streams {
      var id :| Holds(g, id, s);
      assert RecordOk(limits, g, id);
    }
  }

  /** The action ends the lease: by request within its scope, on expiry, with its
      workspace, with the gateway, or because a new lease of the same workspace and mode
      has been signed. */
  predicate Ends(g: Gateway, a: Action, id: LeaseId)
    requires id in g.records
  {
    var lease := g.records[id];
    match a
    case Revokes(other, workspace, wallet) => other == id && workspace == lease.workspace && wallet == lease.wallet
    case TimerFires(other) => other == id
    case WorkspaceStops(workspace) => workspace == lease.workspace
    case Sweeps => g.now >= lease.validBefore
    case Stops => true
    case TunnelBegins(call, t) => call !in g.connecting && t.lease == id && g.now >= lease.validBefore
    case IssueSigned(call, scopeOk, other, _) =>
      scopeOk && call in g.signing && other !in g.records && g.signing[call].workspace == lease.workspace && g.signing[call].mode == lease.mode
    case _ => false
  }

  /** A lease leaves the table exactly when the action ends it. */
  lemma LeavesExactly(limits: Limits, g: Gateway, a: Action, id: LeaseId)
    requires OneLeasePerScope(g) && id in g.table
    ensures id !in Next(limits, g, a).table <==> Ends(g, a, id)
  {
  }

  /** A lease enters the table exactly when its certificate comes back in scope, with the
      scope and expiry that were signed and nothing connected. */
  lemma EntersExactly(limits: Limits, g: Gateway, a: Action, id: LeaseId)
    requires id !in g.table
    ensures var h := Next(limits, g, a);
      && (id in h.table <==> a.IssueSigned? && a.scopeOk && a.id == id && a.call in g.signing && id !in g.records)
      && (id in h.table ==>
            && id in h.records && a.call !in h.signing
            && h.records[id] == Lease(g.signing[a.call].workspace, g.signing[a.call].wallet, g.signing[a.call].mode, a.tokenHash,
                                      g.signing[a.call].validBefore, {}, 0))
  {
  }

  /** An open stream closes exactly when it finishes or its lease ends. */
  lemma ClosesExactly(limits: Limits, g: Gateway, a: Action, id: LeaseId, stream: Stream)
    requires GatewayOk(limits, g) && Holds(g, id, stream) && stream in g.open
    ensures stream !in Next(limits, g, a).open <==> a == StreamFinishes(stream) || Ends(g, a, id)
  {
    assert RecordOk(limits, g, id);
    LeavesExactly(limits, g, a, id);
  }

  /** A stream that finishes is forgotten: its connection is free again, and no other is. */
  lemma FinishedIsForgotten(limits: Limits, g: Gateway, stream: Stream)
    requires stream in g.streams
    ensures var h := Next(limits, g, StreamFinishes(stream));
      && stream !in h.open && h.open + {stream} == g.open + {stream} && h.table == g.table && h.connecting == g.connecting
      && h.records.Keys == g.records.Keys
      && forall id :: id in g.records ==> h.records[id] == g.records[id].(active := g.records[id].active - {stream})
  {
  }

  /** An issue call is under way from when it may be signed until the signer answers or fails. */
  lemma SigningExactly(limits: Limits, g: Gateway, a: Action, call: CallId)
    ensures call in Next(limits, g, a).signing <==>
      if call in g.signing then !(a == IssueFails(call) || (a.IssueSigned? && a.call == call && a.id !in g.records))
      else a.IssueBegins? && a.call == call && Grantable(limits, g.now, a.request).Ok?
  {
  }

  /** A connect is under way until it completes or fails. */
  lemma ConnectingEndsExactly(limits: Limits, g: Gateway, a: Action, call: CallId)
    requires call in g.connecting
    ensures call !in Next(limits, g, a).connecting <==>
      a == ConnectFails(call) || (a.Connected? && a.call == call && a.stream !in g.streams)
  {
  }

  /** A lease is signed exactly when the workspace lasts more than a second and the asked
      time is between five seconds and the maximum; it lasts as asked, but no longer than
      the workspace. */
  lemma GrantedExactly(limits: Limits, now: int, r: LeaseRequest)
    ensures var granted := Grantable(limits, now, r);
      && (granted.Ok? <==> r.workspaceLeaseExpiresAt > now + 1_000 && 5_000 <= r.requestedTtlMs <= limits.maxLeaseMs)
      && (granted.Ok? ==> AsAsked(granted.value, now, r))
      && (granted == Err(WorkspaceLeaseExpired) <==> r.workspaceLeaseExpiresAt <= now + 1_000)
      && (granted == Err(InvalidTtl) <==>
            r.workspaceLeaseExpiresAt > now + 1_000 && !(5_000 <= r.requestedTtlMs <= limits.maxLeaseMs))
  {
  }

  predicate AsAsked(s: Signing, now: int, r: LeaseRequest) {
    && s.workspace == r.workspace && s.wallet == r.wallet && s.mode == r.mode
    && s.validBefore <= r.workspaceLeaseExpiresAt && s.validBefore <= now + r.requestedTtlMs
    && (s.validBefore == r.workspaceLeaseExpiresAt || s.validBefore == now + r.requestedTtlMs)
  }

  // ---- The past --------------------------------------------------------------

  datatype Issue = Issue(at: int, request: LeaseRequest)

  /** What was asked in a run: the last issue and tunnel request of each call, the issue
      each lease came from, and the tunnel request each connected stream answers; and the
      streams that were handed out at some time. None of it is read by the gateway. */
  datatype Past = Past(
    issues: map<CallId, Issue>, leases: map<LeaseId, Issue>,
    tunnels: map<CallId, TunnelRequest>, streams: map<Stream, TunnelRequest>, handedOut: set<Stream>)

  const NOTHING: Past := Past(map[], map[], map[], map[], {})

  /** What the action adds to the past, whatever the gateway makes of it. */
  function Asked(g: Gateway, p: Past, a: Action): Past {
    match a
    case IssueBegins(call, r) => if call !in g.signing then p.(issues := p.issues[call := Issue(g.now, r)]) else p
    case IssueSigned(call, _, id, _) =>
      if call in g.signing && id !in g.records && call in p.issues then p.(leases := p.leases[id := p.issues[call]]) else p
    case TunnelBegins(call, t) => if call !in g.connecting then p.(tunnels := p.tunnels[call := t]) else p
    case Connected(call, stream) =>
      if call in g.connecting && stream !in g.streams && call in p.tunnels then p.(streams := p.streams[stream := p.tunnels[call]]) else p
    case _ => p
  }

  function Remember(limits: Limits, g: Gateway, p: Past, a: Action): Past {
    var asked := Asked(g, p, a);
    asked.(handedOut := p.handedOut + (Next(limits, g, a).open - g.open))
  }

  function Remembered(limits: Limits, g: Gateway, p: Past, run: seq<Action>): Past
    decreases |run|
  {
    if run == [] then p else Remembered(limits, Next(limits, g, run[0]), Remember(limits, g, p, run[0]), run[1..])
  }

  // ---- What every run keeps --------------------------------------------------

  /** The request shows the scope and the token of the lease it names. */
  predicate ShowsItsLease(g: Gateway, t: TunnelRequest) { t.lease in g.records && Shows(g.records[t.lease], t) }

  ghost predicate ConnectsOk(g: Gateway, p: Past) {
    forall call :: call in g.connecting ==>
      call in p.tunnels && p.tunnels[call].lease == g.connecting[call] && ShowsItsLease(g, p.tunnels[call])
  }

  ghost predicate HandedOutOk(g: Gateway, p: Past) {
    forall s :: s in p.handedOut ==> s in g.streams && s in p.streams && ShowsItsLease(g, p.streams[s])
  }

  ghost predicate HoldersOk(g: Gateway, p: Past) {
    forall id, s :: Holds(g, id, s) ==> s in g.streams && s in p.streams && p.streams[s].lease == id
  }

  ghost predicate TunnelsOk(g: Gateway, p: Past) { ConnectsOk(g, p) && HandedOutOk(g, p) && HoldersOk(g, p) }

  /** What never changes about a lease. */
  function Card(lease: Lease): Lease { lease.(active := {}, pending := 0) }

  predicate OfIssue(card: Lease, i: Issue) {
    AsAsked(Signing(card.workspace, card.wallet, card.mode, card.validBefore), i.at, i.request)
  }

  ghost predicate IssuesOk(g: Gateway, p: Past) {
    && (forall call :: call in g.signing ==> call in p.issues && AsAsked(g.signing[call], p.issues[call].at, p.issues[call].request))
    && (forall id :: id in g.records ==> id in p.leases && OfIssue(Card(g.records[id]), p.leases[id]))
  }

  /** No step changes whose a record is. */
  predicate KeepsCards(g: Gateway, h: Gateway) {
    forall id :: id in g.records ==> id in h.records && Card(h.records[id]) == Card(g.records[id])
  }

  lemma CardsKept(limits: Limits, g: Gateway, a: Action)
    ensures KeepsCards(g, Next(limits, g, a))
  {
    if a.IssueSigned? { SigningKeepsCards(limits, g, a); }
  }

  lemma SigningKeepsCards(limits: Limits, g: Gateway, a: Action)
    requires a.IssueSigned?
    ensures KeepsCards(g, Next(limits, g, a))
  {
  }

  lemma ShownStays(limits: Limits, g: Gateway, a: Action)
    ensures forall t :: ShowsItsLease(g, t) ==> ShowsItsLease(Next(limits, g, a), t)
  {
    var h := Next(limits, g, a);
    CardsKept(limits, g, a);
    forall t | ShowsItsLease(g, t) ensures ShowsItsLease(h, t) {
      assert Card(h.records[t.lease]) == Card(g.records[t.lease]);
    }
  }

  /** Only issues sign, and only signatures make records. */
  lemma OthersIssueNothing(limits: Limits, g: Gateway, a: Action)
    requires !a.IssueBegins? && !a.IssueSigned?
    ensures var h := Next(limits, g, a);
      h.records.Keys == g.records.Keys && (forall call :: call in h.signing ==> call in g.signing && h.signing[call] == g.signing[call])
  {
  }

  lemma IssuesKept(limits: Limits, g: Gateway, p: Past, a: Action)
    requires IssuesOk(g, p)
    ensures IssuesOk(Next(limits, g, a), Remember(limits, g, p, a))
  {
    if a.IssueBegins? {
      RequestKeepsIssues(limits, g, p, a);
    } else if a.IssueSigned? {
      SignatureKeepsIssues(limits, g, p, a);
    } else {
      CardsKept(limits, g, a);
      OthersIssueNothing(limits, g, a);
      SameIssues(g, Next(limits, g, a), p, Remember(limits, g, p, a));
    }
  }

  lemma SameIssues(g: Gateway, h: Gateway, p: Past, q: Past)
    requires IssuesOk(g, p) && KeepsCards(g, h) && h.records.Keys == g.records.Keys
    requires forall call :: call in h.signing ==> call in g.signing && h.signing[call] == g.signing[call]
    requires q.issues == p.issues && q.leases == p.leases
    ensures IssuesOk(h, q)
  {
    assert forall id :: id in h.records ==> id in g.records && Card(h.records[id]) == Card(g.records[id]);
  }

  lemma RequestKeepsIssues(limits: Limits, g: Gateway, p: Past, a: Action)
    requires IssuesOk(g, p) && a.IssueBegins?
    ensures IssuesOk(Next(limits, g, a), Asked(g, p, a))
  {
    GrantedExactly(limits, g.now, a.request);
  }

  lemma SignatureKeepsIssues(limits: Limits, g: Gateway, p: Past, a: Action)
    requires IssuesOk(g, p) && a.IssueSigned?
    ensures IssuesOk(Next(limits, g, a), Asked(g, p, a))
  {
    SigningKeepsCards(limits, g, a);
  }

  lemma OnlyTunnelsConnect(limits: Limits, g: Gateway, a: Action)
    requires !a.TunnelBegins?
    ensures forall call :: call in Next(limits, g, a).connecting ==>
      call in g.connecting && Next(limits, g, a).connecting[call] == g.connecting[call]
  {
  }

  lemma OnlyConnectsHandOut(limits: Limits, g: Gateway, a: Action)
    requires !a.Connected? && OneLeasePerScope(g)
    ensures var h := Next(limits, g, a);
      h.open <= g.open && h.streams == g.streams && forall id, s :: Holds(h, id, s) ==> Holds(g, id, s)
  {
  }

  /** A connect under way belongs to a request that shows its lease. */
  lemma ConnectsKept(limits: Limits, g: Gateway, h: Gateway, p: Past, a: Action)
    requires ConnectsOk(g, p) && h == Next(limits, g, a)
    ensures ConnectsOk(h, Asked(g, p, a))
  {
    ShownStays(limits, g, a);
    if !a.TunnelBegins? {
      OnlyTunnelsConnect(limits, g, a);
    } else if a.call !in g.connecting {
      ConnectsAfter(limits, g, a.call, a.tunnel);
      OneMoreConnect(g, h, p, a.call, a.tunnel);
    }
  }

  lemma ConnectsAfter(limits: Limits, g: Gateway, call: CallId, t: TunnelRequest)
    requires call !in g.connecting
    ensures var h := Next(limits, g, TunnelBegins(call, t));
      && (call in h.connecting ==> ShowsItsLease(g, t) && h.connecting == g.connecting[call := t.lease])
      && (call !in h.connecting ==> h.connecting == g.connecting)
  {
    ConnectsExactly(limits, g, call, t);
  }

  lemma OneMoreConnect(g: Gateway, h: Gateway, p: Past, call: CallId, t: TunnelRequest)
    requires ConnectsOk(g, p) && forall t :: ShowsItsLease(g, t) ==> ShowsItsLease(h, t)
    requires call in h.connecting ==> ShowsItsLease(g, t) && h.connecting == g.connecting[call := t.lease]
    requires call !in h.connecting ==> h.connecting == g.connecting
    ensures ConnectsOk(h, p.(tunnels := p.tunnels[call := t]))
  {
  }

  lemma HandedOutKept(limits: Limits, g: Gateway, h: Gateway, p: Past, a: Action)
    requires GatewayOk(limits, g) && ConnectsOk(g, p) && HandedOutOk(g, p) && h == Next(limits, g, a)
    ensures HandedOutOk(h, Remember(limits, g, p, a))
  {
    ShownStays(limits, g, a);
    if a.Connected? {
      if Enabled(limits, g, a) {
        HandsOutExactly(limits, g, a.call, a.stream);
        StreamsGrow(limits, g, a);
        HandedOutGrows(g, h, p, Remember(limits, g, p, a), a);
      }
    } else {
      OnlyConnectsHandOut(limits, g, a);
    }
  }

  lemma StreamsGrow(limits: Limits, g: Gateway, a: Action)
    requires a.Connected? && Enabled(limits, g, a)
    ensures Next(limits, g, a).streams == g.streams + {a.stream}
  {
  }

  lemma HandedOutGrows(g: Gateway, h: Gateway, p: Past, q: Past, a: Action)
    requires ConnectsOk(g, p) && HandedOutOk(g, p) && a.Connected? && a.call in g.connecting && a.stream !in g.streams
    requires forall t :: ShowsItsLease(g, t) ==> ShowsItsLease(h, t)
    requires h.streams == g.streams + {a.stream}
    requires q.streams == p.streams[a.stream := p.tunnels[a.call]] && q.handedOut <= p.handedOut + {a.stream}
    ensures HandedOutOk(h, q)
  {
    assert ShowsItsLease(h, p.tunnels[a.call]);
  }

  lemma ConnectAddsOneHolder(limits: Limits, g: Gateway, a: Action)
    requires GatewayOk(limits, g) && a.Connected? && Enabled(limits, g, a)
    ensures var h := Next(limits, g, a);
      && a.stream in h.streams && g.streams <= h.streams
      && forall id, s :: Holds(h, id, s) ==> Holds(g, id, s) || (s == a.stream && id == g.connecting[a.call])
  {
    UnpendKeeps(limits, g, a.call);
  }

  lemma HoldersKept(limits: Limits, g: Gateway, h: Gateway, p: Past, a: Action)
    requires GatewayOk(limits, g) && ConnectsOk(g, p) && HoldersOk(g, p) && h == Next(limits, g, a)
    ensures HoldersOk(h, Asked(g, p, a))
  {
    if !a.Connected? {
      OnlyConnectsHandOut(limits, g, a);
    } else if Enabled(limits, g, a) {
      ConnectAddsOneHolder(limits, g, a);
    }
  }

  lemma TunnelsKept(limits: Limits, g: Gateway, p: Past, a: Action)
    requires GatewayOk(limits, g) && TunnelsOk(g, p)
    ensures TunnelsOk(Next(limits, g, a), Remember(limits, g, p, a))
  {
    ConnectsKept(limits, g, Next(limits, g, a), p, a);
    HandedOutKept(limits, g, Next(limits, g, a), p, a);
    HoldersKept(limits, g, Next(limits, g, a), p, a);
  }

  lemma {:induction false} PastHolds(limits: Limits, g: Gateway, p: Past, run: seq<Action>)
    requires GatewayOk(limits, g) && TunnelsOk(g, p) && IssuesOk(g, p)
    ensures var h := Execute(limits, g, run); var q := Remembered(limits, g, p, run);
      GatewayOk(limits, h) && TunnelsOk(h, q) && IssuesOk(h, q)
    decreases |run|
  {
    if run != [] {
      StepKeeps(limits, g, run[0]);
      TunnelsKept(limits, g, p, run[0]);
      IssuesKept(limits, g, p, run[0]);
      PastHolds(limits, Next(limits, g, run[0]), Remember(limits, g, p, run[0]), run[1..]);
    }
  }

  /** Every stream that was ever handed out, in any run, answers a request that shows the
      workspace, wallet, mode and token of the lease it names; and every lease belongs to
      whom it was issued for and lasts as asked, never beyond its workspace. */
  lemma StreamsAreAuthorised(limits: Limits, start: int, run: seq<Action>)
    ensures var g := Execute(limits, Empty(start), run); var p := Remembered(limits, Empty(start), NOTHING, run);
      && g.open <= p.handedOut
      && (forall s :: s in p.handedOut ==> s in p.streams && ShowsItsLease(g, p.streams[s]))
      && (forall id, s :: Holds(g, id, s) ==> s in p.streams && p.streams[s].lease == id)
      && (forall id :: id in g.records ==> id in p.leases && OfIssue(Card(g.records[id]), p.leases[id]))
  {
    PastHolds(limits, Empty(start), NOTHING, run);
    OpenWereHandedOut(limits, Empty(start), NOTHING, run);
  }

  lemma {:induction false} OpenWereHandedOut(limits: Limits, g: Gateway, p: Past, run: seq<Action>)
    requires g.open <= p.handedOut
    ensures Execute(limits, g, run).open <= Remembered(limits, g, p, run).handedOut
    decreases |run|
  {
    if run != [] {
      OpenWereHandedOut(limits, Next(limits, g, run[0]), Remember(limits, g, p, run[0]), run[1..]);
    }
  }
}
