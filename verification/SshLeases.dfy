/** The SSH gateway's lease table: connection-limited leases with asynchronous signing
    and connecting, revoked by replacement, expiry, request or workspace stop. */
module SshLeases {
  import opened Basics

  type LeaseId = nat
  type CallId = nat
  type Stream = nat
  type Digest = bytes

  datatype AccessMode = Shell | Nfs

  datatype Lease = Lease(
    workspace: string, wallet: string, mode: AccessMode, tokenHash: Digest, validBefore: int,
    active: set<Stream>, pending: nat)

  datatype LeaseRequest = LeaseRequest(
    workspace: string, wallet: string, mode: AccessMode, workspaceLeaseExpiresAt: int, requestedTtlMs: int)

  /** An `issue` call that awaits the signer. */
  datatype Signing = Signing(workspace: string, wallet: string, mode: AccessMode, validBefore: int)

  datatype TunnelRequest = TunnelRequest(lease: LeaseId, workspace: string, wallet: string, mode: AccessMode, tokenHash: Digest)

  datatype LeaseError =
    | WorkspaceLeaseExpired | InvalidTtl | TooCloseToExpiry | WrongScope
    | ExpiredOrRevoked | ScopeMismatch | InvalidToken | ConnectionLimit | Expired | NotFound

  datatype Limits = Limits(maxLeaseMs: int, maxConnections: nat)

  /** `records` are all records ever made, as pending connects may still hold them;
      `table` are those still reachable through the lease map. `open` are the streams
      handed out that have not closed, ended, failed or been destroyed. */
  datatype Gateway = Gateway(
    now: int, records: map<LeaseId, Lease>, table: set<LeaseId>,
    signing: map<CallId, Signing>, connecting: map<CallId, LeaseId>,
    streams: set<Stream>, open: set<Stream>)

  function Empty(now: int): Gateway { Gateway(now, map[], {}, map[], map[], {}, {}) }

  datatype Action =
    | Tick(to: int)
    | IssueBegins(call: CallId, request: LeaseRequest)
    | IssueSigned(call: CallId, scopeOk: bool, id: LeaseId, tokenHash: Digest)
    | IssueFails(call: CallId)
    | TunnelBegins(call: CallId, tunnel: TunnelRequest)
    | Connected(call: CallId, stream: Stream)
    | ConnectFails(call: CallId)
    | StreamFinishes(stream: Stream)
    | Revokes(id: LeaseId, workspace: string, wallet: string)
    | WorkspaceStops(workspace: string)
    | Sweeps
    | Stops
    | TimerFires(id: LeaseId)

  // ---- Revocation ----------------------------------------------------------

  /** Takes the leases out of the table, destroying and forgetting their streams. */
  function RevokeAll(g: Gateway, ids: set<LeaseId>): Gateway {
    g.(records := map id | id in g.records :: if id in ids then g.records[id].(active := {}) else g.records[id],
       table := g.table - ids,
       open := g.open - (set id, s | id in ids && id in g.records && s in g.records[id].active :: s))
  }

  function RevokeTrusted(g: Gateway, id: LeaseId): Gateway {
    if id in g.table then RevokeAll(g, {id}) else g
  }

  function OfWorkspace(g: Gateway, workspace: string): set<LeaseId> {
    set id | id in g.table && id in g.records && g.records[id].workspace == workspace
  }

  function Rivals(g: Gateway, workspace: string, mode: AccessMode): set<LeaseId> {
    set id | id in g.table && id in g.records && g.records[id].workspace == workspace && g.records[id].mode == mode
  }

  function ExpiredLeases(g: Gateway): set<LeaseId> {
    set id | id in g.table && id in g.records && g.now >= g.records[id].validBefore
  }

  // ---- Issuing -------------------------------------------------------------

  function Grantable(limits: Limits, now: int, r: LeaseRequest): Result<Signing, LeaseError> {
    if r.workspaceLeaseExpiresAt <= now + 1_000 then Err(WorkspaceLeaseExpired)
    else if r.requestedTtlMs < 5_000 || r.requestedTtlMs > limits.maxLeaseMs then Err(InvalidTtl)
    else
      var validBefore := Min(r.workspaceLeaseExpiresAt, now + r.requestedTtlMs);
      if validBefore <= now + 1_000 then Err(TooCloseToExpiry)
      else Ok(Signing(r.workspace, r.wallet, r.mode, validBefore))
  }

  function Grant(g: Gateway, call: CallId, id: LeaseId, tokenHash: Digest): Gateway
    requires call in g.signing
  {
    var s := g.signing[call];
    var cleared := RevokeAll(g, Rivals(g, s.workspace, s.mode));
    cleared.(records := cleared.records[id := Lease(s.workspace, s.wallet, s.mode, tokenHash, s.validBefore, {}, 0)],
             table := cleared.table + {id},
             signing := g.signing - {call})
  }

  // ---- Tunnels -------------------------------------------------------------

  /** Why a tunnel is refused. An expired lease is also revoked by asking. */
  function TunnelRefusal(limits: Limits, g: Gateway, t: TunnelRequest): Option<LeaseError> {
    if t.lease !in g.table || t.lease !in g.records || g.now >= g.records[t.lease].validBefore then Some(ExpiredOrRevoked)
    else
      var lease := g.records[t.lease];
      if lease.workspace != t.workspace || lease.wallet != t.wallet || lease.mode != t.mode then Some(ScopeMismatch)
      else if lease.tokenHash != t.tokenHash then Some(InvalidToken)
      else if |lease.active| + lease.pending >= limits.maxConnections then Some(ConnectionLimit)
      else None
  }

  function BeginTunnel(limits: Limits, g: Gateway, call: CallId, t: TunnelRequest): Gateway {
    match TunnelRefusal(limits, g, t)
    case None =>
      if t.lease in g.records then
        g.(records := g.records[t.lease := g.records[t.lease].(pending := g.records[t.lease].pending + 1)],
           connecting := g.connecting[call := t.lease])
      else g
    case Some(ExpiredOrRevoked) =>
      if t.lease in g.table && t.lease in g.records && g.now >= g.records[t.lease].validBefore
      then RevokeTrusted(g, t.lease) else g
    case Some(_) => g
  }

  /** The `finally` of the connect: one pending connection fewer. */
  function Unpend(g: Gateway, call: CallId): Gateway
    requires call in g.connecting
  {
    var id := g.connecting[call];
    g.(connecting := g.connecting - {call},
       records := if id in g.records && g.records[id].pending > 0
                  then g.records[id := g.records[id].(pending := g.records[id].pending - 1)] else g.records)
  }

  /** Does a connect that completes now hand its stream out? */
  predicate Yields(g: Gateway, call: CallId)
    requires call in g.connecting
  {
    var id := g.connecting[call];
    id in g.records && id in g.table && g.now < g.records[id].validBefore
  }

  function Connect(g: Gateway, call: CallId, stream: Stream): Gateway
    requires call in g.connecting
  {
    var id := g.connecting[call];
    var h := Unpend(g, call).(streams := g.streams + {stream});
    if Yields(g, call)
    then h.(records := h.records[id := h.records[id].(active := h.records[id].active + {stream})], open := h.open + {stream})
    else h
  }

  /** The release callback, registered on the record the stream was handed out for. */
  function Release(g: Gateway, stream: Stream): Gateway {
    g.(records := map id | id in g.records :: g.records[id].(active := g.records[id].active - {stream}),
       open := g.open - {stream})
  }

  // ---- The transition function ---------------------------------------------

  predicate Enabled(limits: Limits, g: Gateway, a: Action) {
    match a
    case Tick(to) => to >= g.now
    case IssueBegins(call, r) => call !in g.signing && Grantable(limits, g.now, r).Ok?
    case IssueSigned(call, _, id, _) => call in g.signing && id !in g.records
    case IssueFails(call) => call in g.signing
    case TunnelBegins(call, _) => call !in g.connecting
    case Connected(call, stream) => call in g.connecting && stream !in g.streams
    case ConnectFails(call) => call in g.connecting
    case StreamFinishes(stream) => stream in g.streams
    case Revokes(id, workspace, wallet) =>
      id in g.table && id in g.records && g.records[id].workspace == workspace && g.records[id].wallet == wallet
    case WorkspaceStops(_) => true
    case Sweeps => true
    case Stops => true
    case TimerFires(_) => true
  }

  function Perform(limits: Limits, g: Gateway, a: Action): Gateway
    requires Enabled(limits, g, a)
  {
    match a
    case Tick(to) => g.(now := to)
    case IssueBegins(call, r) => g.(signing := g.signing[call := Grantable(limits, g.now, r).value])
    case IssueSigned(call, scopeOk, id, tokenHash) =>
      if scopeOk then Grant(g, call, id, tokenHash) else g.(signing := g.signing - {call})
    case IssueFails(call) => g.(signing := g.signing - {call})
    case TunnelBegins(call, t) => BeginTunnel(limits, g, call, t)
    case Connected(call, stream) => Connect(g, call, stream)
    case ConnectFails(call) => Unpend(g, call)
    case StreamFinishes(stream) => Release(g, stream)
    case Revokes(id, _, _) => RevokeTrusted(g, id)
    case WorkspaceStops(workspace) => RevokeAll(g, OfWorkspace(g, workspace))
    case Sweeps => RevokeAll(g, ExpiredLeases(g))
    case Stops => RevokeAll(g, g.table)
    case TimerFires(id) => RevokeTrusted(g, id)
  }

  function Next(limits: Limits, g: Gateway, a: Action): Gateway {
    if Enabled(limits, g, a) then Perform(limits, g, a) else g
  }

  function Execute(limits: Limits, g: Gateway, run: seq<Action>): Gateway
    decreases |run|
  {
    if run == [] then g else Execute(limits, Next(limits, g, run[0]), run[1..])
  }

  // ---- What every run keeps ------------------------------------------------

  function CallsFor(g: Gateway, id: LeaseId): set<CallId> {
    set call | call in g.connecting && g.connecting[call] == id
  }

  /** A record counts exactly its unfinished connects, within the limit; once out of the
      table it has no streams. */
  ghost predicate RecordOk(limits: Limits, g: Gateway, id: LeaseId)
    requires id in g.records
  {
    var lease := g.records[id];
    && |lease.active| + lease.pending <= limits.maxConnections
    && lease.pending == |CallsFor(g, id)|
    && (id !in g.table ==> lease.active == {})
    && lease.active <= g.streams
  }

  predicate SameScope(a: Lease, b: Lease) { a.workspace == b.workspace && a.mode == b.mode }

  ghost predicate OneLeasePerScope(g: Gateway) {
    && (forall id :: id in g.table ==> id in g.records)
    && (forall a, b :: a in g.table && b in g.table && SameScope(g.records[a], g.records[b]) ==> a == b)
  }

  predicate Holds(g: Gateway, id: LeaseId, s: Stream) {
    id in g.table && id in g.records && s in g.records[id].active
  }

  /** Every open stream is in the active set of exactly one lease in the table. */
  ghost predicate OpenStreamsAreTracked(g: Gateway) {
    && (forall s :: s in g.open ==> exists id :: Holds(g, id, s))
    && (forall a, b, s :: a in g.records && b in g.records && s in g.records[a].active && s in g.records[b].active ==> a == b)
  }

  ghost predicate GatewayOk(limits: Limits, g: Gateway) {
    && (forall call :: call in g.connecting ==> g.connecting[call] in g.records)
    && (forall id :: id in g.records ==> RecordOk(limits, g, id))
    && OneLeasePerScope(g)
    && OpenStreamsAreTracked(g)
  }

  lemma RevocationKeeps(limits: Limits, g: Gateway, ids: set<LeaseId>)
    requires GatewayOk(limits, g) && ids <= g.table
    ensures GatewayOk(limits, RevokeAll(g, ids))
  {
    var h := RevokeAll(g, ids);
    forall id | id in h.records ensures RecordOk(limits, h, id) {
      assert RecordOk(limits, g, id);
      assert CallsFor(h, id) == CallsFor(g, id);
    }
    forall s | s in h.open ensures exists id :: Holds(h, id, s) {
      var id :| Holds(g, id, s);
      assert Holds(h, id, s);
    }
  }

  /** Adding a fresh, empty record outside every other lease's scope. */
  lemma AddingKeeps(limits: Limits, g: Gateway, h: Gateway, id: LeaseId)
    requires GatewayOk(limits, g) && id !in g.records && id in h.records
    requires h == g.(records := g.records[id := h.records[id]], table := g.table + {id}, signing := h.signing)
    requires h.records[id].active == {} && h.records[id].pending == 0
    requires forall other :: other in g.table ==> !SameScope(g.records[other], h.records[id])
    ensures GatewayOk(limits, h)
  {
    assert CallsFor(h, id) == {};
    forall other | other in h.records ensures RecordOk(limits, h, other) {
      if other != id {
        assert RecordOk(limits, g, other);
        assert CallsFor(h, other) == CallsFor(g, other);
      }
    }
    forall s | s in h.open ensures exists o :: Holds(h, o, s) {
      var o :| Holds(g, o, s);
      assert Holds(h, o, s);
    }
  }

  lemma GrantKeeps(limits: Limits, g: Gateway, call: CallId, id: LeaseId, tokenHash: Digest)
    requires GatewayOk(limits, g) && call in g.signing && id !in g.records
    ensures GatewayOk(limits, Grant(g, call, id, tokenHash))
  {
    var s := g.signing[call];
    var rivals := Rivals(g, s.workspace, s.mode);
    RevocationKeeps(limits, g, rivals);
    var cleared := RevokeAll(g, rivals);
    forall other | other in cleared.table ensures cleared.records[other].workspace != s.workspace || cleared.records[other].mode != s.mode {
      assert other in g.table && other !in rivals;
    }
    AddingKeeps(limits, cleared, Grant(g, call, id, tokenHash), id);
  }

  lemma UpdateKeepsTracking(limits: Limits, g: Gateway, h: Gateway, id: LeaseId, lease: Lease, added: set<Stream>)
    requires GatewayOk(limits, g) && id in g.records && h.records == g.records[id := lease] && h.table == g.table
    requires h.open == g.open + added && lease.active == g.records[id].active + added
    requires added !! g.streams && (id !in g.table ==> added == {})
    ensures OpenStreamsAreTracked(h)
  {
    forall s | s in h.open ensures exists o :: Holds(h, o, s) {
      if s in g.open {
        var o :| Holds(g, o, s);
        assert Holds(h, o, s);
      } else {
        assert Holds(h, id, s);
      }
    }
    forall a | a in g.records ensures g.records[a].active !! added { assert RecordOk(limits, g, a); }
    HoldersStayUnique(g, h, id, lease, added);
  }

  lemma HoldersStayUnique(g: Gateway, h: Gateway, id: LeaseId, lease: Lease, added: set<Stream>)
    requires id in g.records && h.records == g.records[id := lease] && lease.active == g.records[id].active + added
    requires forall a :: a in g.records ==> g.records[a].active !! added
    requires forall a, b, s :: a in g.records && b in g.records && s in g.records[a].active && s in g.records[b].active ==> a == b
    ensures forall a, b, s :: a in h.records && b in h.records && s in h.records[a].active && s in h.records[b].active ==> a == b
  {
    forall a, b, s | a in h.records && b in h.records && s in h.records[a].active && s in h.records[b].active ensures a == b {
      if s !in added {
        assert s in g.records[a].active && s in g.records[b].active;
      }
    }
  }

  /** Changing one record, without changing whose it is. */
  lemma UpdateKeeps(limits: Limits, g: Gateway, h: Gateway, id: LeaseId, lease: Lease, added: set<Stream>)
    requires GatewayOk(limits, g) && id in g.records && h.records == g.records[id := lease]
    requires h.table == g.table && g.streams <= h.streams && SameScope(g.records[id], lease)
    requires forall call :: call in h.connecting ==> h.connecting[call] in h.records
    requires forall other :: other != id ==> CallsFor(h, other) == CallsFor(g, other)
    requires RecordOk(limits, h, id)
    requires h.open == g.open + added && lease.active == g.records[id].active + added
    requires added !! g.streams && (id !in g.table ==> added == {})
    ensures GatewayOk(limits, h)
  {
    forall other | other in h.records ensures RecordOk(limits, h, other) {
      if other != id { assert RecordOk(limits, g, other); }
    }
    UpdateKeepsTracking(limits, g, h, id, lease, added);
  }

  lemma TunnelKeeps(limits: Limits, g: Gateway, call: CallId, t: TunnelRequest)
    requires GatewayOk(limits, g) && call !in g.connecting
    ensures GatewayOk(limits, BeginTunnel(limits, g, call, t))
  {
    var h := BeginTunnel(limits, g, call, t);
    if TunnelRefusal(limits, g, t).None? {
      PendingKeeps(limits, g, h, call, t.lease);
    } else if t.lease in g.table {
      RevocationKeeps(limits, g, {t.lease});
    }
  }

  /** Counting one more connect against a lease with room for it. */
  lemma PendingKeeps(limits: Limits, g: Gateway, h: Gateway, call: CallId, id: LeaseId)
    requires GatewayOk(limits, g) && call !in g.connecting && id in g.table && id in g.records
    requires |g.records[id].active| + g.records[id].pending < limits.maxConnections
    requires h == g.(records := g.records[id := g.records[id].(pending := g.records[id].pending + 1)],
                     connecting := g.connecting[call := id])
    ensures GatewayOk(limits, h)
  {
    assert RecordOk(limits, g, id);
    OneMoreCall(g, h, call, id);
    assert RecordOk(limits, h, id);
    UpdateKeeps(limits, g, h, id, h.records[id], {});
  }

  lemma OneMoreCall(g: Gateway, h: Gateway, call: CallId, id: LeaseId)
    requires call !in g.connecting && h.connecting == g.connecting[call := id]
    ensures |CallsFor(h, id)| == |CallsFor(g, id)| + 1
    ensures forall other :: other != id ==> CallsFor(h, other) == CallsFor(g, other)
  {
    assert CallsFor(h, id) == CallsFor(g, id) + {call};
    forall other | other != id ensures CallsFor(h, other) == CallsFor(g, other) {}
  }

  lemma UnpendKeeps(limits: Limits, g: Gateway, call: CallId)
    requires GatewayOk(limits, g) && call in g.connecting
    ensures GatewayOk(limits, Unpend(g, call))
    ensures var id := g.connecting[call];
      g.records[id].pending > 0 && Unpend(g, call).records[id] == g.records[id].(pending := g.records[id].pending - 1)
  {
    var id := g.connecting[call];
    var h := Unpend(g, call);
    assert RecordOk(limits, g, id) && call in CallsFor(g, id);
    assert CallsFor(h, id) == CallsFor(g, id) - {call};
    forall other | other != id ensures CallsFor(h, other) == CallsFor(g, other) {}
    UpdateKeeps(limits, g, h, id, h.records[id], {});
  }

  lemma HandOutKeeps(limits: Limits, u: Gateway, h: Gateway, id: LeaseId, stream: Stream)
    requires GatewayOk(limits, u) && id in u.table && stream !in u.streams
    requires |u.records[id].active| + u.records[id].pending < limits.maxConnections
    requires h == u.(records := u.records[id := u.records[id].(active := u.records[id].active + {stream})],
                     streams := u.streams + {stream}, open := u.open + {stream})
    ensures GatewayOk(limits, h)
  {
    assert RecordOk(limits, u, id);
    forall other ensures CallsFor(h, other) == CallsFor(u, other) {}
    UpdateKeeps(limits, u, h, id, h.records[id], {stream});
  }

  lemma ConnectKeeps(limits: Limits, g: Gateway, call: CallId, stream: Stream)
    requires GatewayOk(limits, g) && call in g.connecting && stream !in g.streams
    ensures GatewayOk(limits, Connect(g, call, stream))
  {
    var id := g.connecting[call];
    var u := Unpend(g, call);
    UnpendKeeps(limits, g, call);
    if Yields(g, call) {
      assert RecordOk(limits, g, id);
      HandOutKeeps(limits, u, Connect(g, call, stream), id, stream);
    } else {
      PlainStepKeeps(limits, u, Connect(g, call, stream));
    }
  }

  lemma ReleaseKeeps(limits: Limits, g: Gateway, stream: Stream)
    requires GatewayOk(limits, g)
    ensures GatewayOk(limits, Release(g, stream))
  {
    var h := Release(g, stream);
    forall id | id in h.records ensures RecordOk(limits, h, id) {
      assert RecordOk(limits, g, id);
      assert CallsFor(h, id) == CallsFor(g, id);
      SubsetSize(h.records[id].active, g.records[id].active);
    }
    forall s | s in h.open ensures exists id :: Holds(h, id, s) {
      var id :| Holds(g, id, s);
      assert Holds(h, id, s);
    }
  }

  lemma PlainStepKeeps(limits: Limits, g: Gateway, h: Gateway)
    requires GatewayOk(limits, g)
    requires h.records == g.records && h.table == g.table && h.connecting == g.connecting
    requires h.open == g.open && g.streams <= h.streams
    ensures GatewayOk(limits, h)
  {
    forall id | id in h.records ensures RecordOk(limits, h, id) {
      assert RecordOk(limits, g, id);
      assert CallsFor(h, id) == CallsFor(g, id);
    }
    forall s | s in h.open ensures exists id :: Holds(h, id, s) {
      var id :| Holds(g, id, s);
      assert Holds(h, id, s);
    }
  }

  lemma StepKeeps(limits: Limits, g: Gateway, a: Action)
    requires GatewayOk(limits, g)
    ensures GatewayOk(limits, Next(limits, g, a))
  {
    if !Enabled(limits, g, a) { return; }
    match a
    case Tick(_) => PlainStepKeeps(limits, g, Next(limits, g, a));
    case IssueBegins(_, _) => PlainStepKeeps(limits, g, Next(limits, g, a));
    case IssueFails(_) => PlainStepKeeps(limits, g, Next(limits, g, a));
    case IssueSigned(call, scopeOk, id, tokenHash) =>
      if scopeOk { GrantKeeps(limits, g, call, id, tokenHash); } else { PlainStepKeeps(limits, g, Next(limits, g, a)); }
    case TunnelBegins(call, t) => TunnelKeeps(limits, g, call, t);
    case Connected(call, stream) => ConnectKeeps(limits, g, call, stream);
    case ConnectFails(call) => UnpendKeeps(limits, g, call);
    case StreamFinishes(stream) => ReleaseKeeps(limits, g, stream);
    case Revokes(id, _, _) => RevocationKeeps(limits, g, {id});
    case WorkspaceStops(workspace) => RevocationKeeps(limits, g, OfWorkspace(g, workspace));
    case Sweeps => RevocationKeeps(limits, g, ExpiredLeases(g));
    case Stops => RevocationKeeps(limits, g, g.table);
    case TimerFires(id) => if id in g.table { RevocationKeeps(limits, g, {id}); }
  }

  lemma {:induction false} RunKeeps(limits: Limits, g: Gateway, run: seq<Action>)
    requires GatewayOk(limits, g)
    ensures GatewayOk(limits, Execute(limits, g, run))
    decreases |run|
  {
    if run != [] {
      StepKeeps(limits, g, run[0]);
      RunKeeps(limits, Next(limits, g, run[0]), run[1..]);
    }
  }

  /** After every run: one lease per workspace and mode; active and pending connections
      within the limit; every open stream in the active set of exactly one lease, which
      is still in the table. */
  lemma LeasesStaySafe(limits: Limits, start: int, run: seq<Action>)
    ensures var g := Execute(limits, Empty(start), run);
      && OneLeasePerScope(g)
      && (forall id :: id in g.records ==> |g.records[id].active| + |CallsFor(g, id)| <= limits.maxConnections)
      && (forall s :: s in g.open ==> exists id :: Holds(g, id, s))
      && (forall a, b, s :: a in g.records && b in g.records && s in g.records[a].active && s in g.records[b].active ==> a == b)
      && (forall id :: id in g.records && id !in g.table ==> g.records[id].active == {})
  {
    RunKeeps(limits, Empty(start), run);
    var g := Execute(limits, Empty(start), run);
    forall id | id in g.records
      ensures |g.records[id].active| + |CallsFor(g, id)| <= limits.maxConnections && (id !in g.table ==> g.records[id].active == {})
    {
      assert RecordOk(limits, g, id);
    }
  }

  // ---- Revocation is final -------------------------------------------------

  /** The lease can no longer hand out a stream. */
  predicate Dead(g: Gateway, id: LeaseId) {
    id in g.records && (id !in g.table || g.now >= g.records[id].validBefore)
  }

  lemma DeadStays(limits: Limits, g: Gateway, a: Action, id: LeaseId)
    requires OneLeasePerScope(g) && Dead(g, id)
    ensures Dead(Next(limits, g, a), id)
  {
  }

  lemma {:induction false} DeadForever(limits: Limits, g: Gateway, run: seq<Action>, id: LeaseId)
    requires GatewayOk(limits, g) && Dead(g, id)
    ensures Dead(Execute(limits, g, run), id)
    decreases |run|
  {
    if run != [] {
      StepKeeps(limits, g, run[0]);
      DeadStays(limits, g, run[0], id);
      DeadForever(limits, Next(limits, g, run[0]), run[1..], id);
    }
  }

  /** Once a lease was revoked, replaced or expired, no connect that completes later for
      it, whenever it began, yields a stream. */
  lemma LateConnectsYieldNothing(limits: Limits, start: int, past: seq<Action>, later: seq<Action>, call: CallId, stream: Stream)
    requires var g := Execute(limits, Execute(limits, Empty(start), past), later);
      call in g.connecting && stream !in g.streams && Dead(Execute(limits, Empty(start), past), g.connecting[call])
    ensures var g := Execute(limits, Execute(limits, Empty(start), past), later); var h := Next(limits, g, Connected(call, stream));
      h.open == g.open && stream !in h.open && forall id :: id in h.records ==> stream !in h.records[id].active
  {
    RunKeeps(limits, Empty(start), past);
    var g0 := Execute(limits, Empty(start), past);
    RunKeeps(limits, g0, later);
    var g := Execute(limits, g0, later);
    DeadForever(limits, g0, later, g.connecting[call]);
    forall id | id in g.records ensures stream !in g.records[id].active { assert RecordOk(limits, g, id); }
    forall s | s in g.open ensures s in g.streams {
      var id :| Holds(g, id, s);
      assert RecordOk(limits, g, id);
    }
  }
}
