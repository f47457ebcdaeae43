/** The gateway object: its methods change the lease map and the records as the
    transitions say, one span between awaits at a time. */
module SshLeaseManager {
  import opened Basics
  import opened SshLeases

  lemma RevokeNone(g: Gateway)
    ensures RevokeAll(g, {}) == g
  {
    assert RevokeAll(g, {}).records == g.records;
  }

  lemma RevokeOneMore(g: Gateway, ids: set<LeaseId>, id: LeaseId)
    requires id !in ids
    ensures RevokeAll(RevokeAll(g, ids), {id}) == RevokeAll(g, ids + {id})
  {
    var h, k := RevokeAll(RevokeAll(g, ids), {id}), RevokeAll(g, ids + {id});
    assert h.records == k.records;
    assert h.table == k.table;
    assert h.open == k.open;
  }

  class SshLeaseManager {
    const limits: Limits
    var now: int
    var records: map<LeaseId, Lease>
    var leases: set<LeaseId>
    var signing: map<CallId, Signing>
    var connecting: map<CallId, LeaseId>
    var streams: set<Stream>
    var open: set<Stream>

    ghost function Model(): Gateway
      reads this
    {
      Gateway(now, records, leases, signing, connecting, streams, open)
    }

    constructor (limits: Limits, now: int)
      ensures this.limits == limits && Model() == Empty(now)
    {
      this.limits, this.now := limits, now;
      records, leases, signing, connecting, streams, open := map[], {}, map[], map[], {}, {};
    }

    method RevokeLease(id: LeaseId)
      requires leases <= records.Keys
      modifies this`records, this`leases, this`open
      ensures Model() == RevokeTrusted(old(Model()), id)
    {
      if id !in leases { return; }
      leases := leases - {id};
      open := open - records[id].active;
      records := records[id := records[id].(active := {})];
      assert records == RevokeAll(old(Model()), {id}).records;
    }

    /** Revokes the given leases of the table one after another. */
    method RevokeEach(ids: set<LeaseId>)
      requires ids <= leases <= records.Keys
      modifies this`records, this`leases, this`open
      ensures Model() == RevokeAll(old(Model()), ids)
    {
      var rest := ids;
      RevokeNone(Model());
      while rest != {}
        invariant rest <= ids && rest <= leases <= records.Keys
        invariant Model() == RevokeAll(old(Model()), ids - rest)
        decreases rest
      {
        var id :| id in rest;
        RevokeOneMore(old(Model()), ids - rest, id);
        assert ids - rest + {id} == ids - (rest - {id});
        RevokeLease(id);
        rest := rest - {id};
      }
      assert ids - rest == ids;
    }

    /** Checks the request and asks the signer, or refuses and changes nothing. */
    method BeginIssue(call: CallId, request: LeaseRequest) returns (result: Result<Signing, LeaseError>)
      requires call !in signing
      modifies this`signing
      ensures result == Grantable(limits, now, request)
      ensures Model() == Next(limits, old(Model()), IssueBegins(call, request))
    {
      if request.workspaceLeaseExpiresAt <= now + 1_000 { return Err(WorkspaceLeaseExpired); }
      if request.requestedTtlMs < 5_000 || request.requestedTtlMs > limits.maxLeaseMs { return Err(InvalidTtl); }
      var validBefore := Min(request.workspaceLeaseExpiresAt, now + request.requestedTtlMs);
      if validBefore <= now + 1_000 { return Err(TooCloseToExpiry); }
      result := Ok(Signing(request.workspace, request.wallet, request.mode, validBefore));
      signing := signing[call := result.value];
    }

    /** The signer answered: replaces any lease of the same workspace and mode. */
    method FinishIssue(call: CallId, scopeOk: bool, freshId: LeaseId, tokenHash: Digest) returns (result: Result<LeaseId, LeaseError>)
      requires call in signing && freshId !in records && leases <= records.Keys
      modifies this
      ensures result == if scopeOk then Ok(freshId) else Err(WrongScope)
      ensures Model() == Next(limits, old(Model()), IssueSigned(call, scopeOk, freshId, tokenHash))
    {
      var s := signing[call];
      signing := signing - {call};
      if !scopeOk { return Err(WrongScope); }
      var rivals := set id | id in leases && records[id].workspace == s.workspace && records[id].mode == s.mode;
      assert rivals == Rivals(old(Model()), s.workspace, s.mode);
      RevokeEach(rivals);
      records := records[freshId := Lease(s.workspace, s.wallet, s.mode, tokenHash, s.validBefore, {}, 0)];
      leases := leases + {freshId};
      result := Ok(freshId);
    }

    /** Authorises the tunnel and starts the connect. Asking for an expired lease
        revokes it; every other refusal changes nothing. */
    method BeginTunnel(call: CallId, request: TunnelRequest) returns (refusal: Option<LeaseError>)
      requires call !in connecting && leases <= records.Keys
      modifies this
      ensures refusal == TunnelRefusal(limits, old(Model()), request)
      ensures Model() == Next(limits, old(Model()), TunnelBegins(call, request))
    {
      if request.lease !in leases { return Some(ExpiredOrRevoked); }
      var lease := records[request.lease];
      if now >= lease.validBefore {
        RevokeLease(request.lease);
        return Some(ExpiredOrRevoked);
      }
      if lease.workspace != request.workspace || lease.wallet != request.wallet || lease.mode != request.mode {
        return Some(ScopeMismatch);
      }
      if lease.tokenHash != request.tokenHash { return Some(InvalidToken); }
      if |lease.active| + lease.pending >= limits.maxConnections { return Some(ConnectionLimit); }
      records := records[request.lease := lease.(pending := lease.pending + 1)];
      connecting := connecting[call := request.lease];
      refusal := None;
    }

    /** The connect succeeded: the stream is handed out, unless the lease has meanwhile
        left the table or expired, in which case it is destroyed. */
    method FinishConnect(call: CallId, stream: Stream) returns (result: Result<Stream, LeaseError>)
      requires Enabled(limits, Model(), Connected(call, stream))
      requires connecting[call] in records && records[connecting[call]].pending > 0
      modifies this
      ensures result == if Yields(old(Model()), call) then Ok(stream) else Err(LeaseError.Expired)
      ensures Model() == Next(limits, old(Model()), Connected(call, stream))
    {
      var id := connecting[call];
      connecting := connecting - {call};
      records := records[id := records[id].(pending := records[id].pending - 1)];
      streams := streams + {stream};
      if now >= records[id].validBefore || id !in leases { return Err(LeaseError.Expired); }
      records := records[id := records[id].(active := records[id].active + {stream})];
      open := open + {stream};
      result := Ok(stream);
    }

    method FailConnect(call: CallId)
      requires Enabled(limits, Model(), ConnectFails(call))
      requires connecting[call] in records && records[connecting[call]].pending > 0
      modifies this`connecting, this`records
      ensures Model() == Next(limits, old(Model()), ConnectFails(call))
    {
      var id := connecting[call];
      connecting := connecting - {call};
      records := records[id := records[id].(pending := records[id].pending - 1)];
    }

    method Revoke(id: LeaseId, workspace: string, wallet: string) returns (result: Result<LeaseId, LeaseError>)
      requires leases <= records.Keys
      modifies this`records, this`leases, this`open
      ensures result.Ok? <==> Enabled(limits, old(Model()), Revokes(id, workspace, wallet))
      ensures Model() == Next(limits, old(Model()), Revokes(id, workspace, wallet))
    {
      if id !in leases || records[id].workspace != workspace || records[id].wallet != wallet { return Err(NotFound); }
      RevokeLease(id);
      result := Ok(id);
    }

    method RevokeWorkspace(workspace: string)
      requires leases <= records.Keys
      modifies this`records, this`leases, this`open
      ensures Model() == Next(limits, old(Model()), WorkspaceStops(workspace))
    {
      RevokeEach(OfWorkspace(Gateway(now, records, leases, signing, connecting, streams, open), workspace));
    }

    method SweepExpired()
      requires leases <= records.Keys
      modifies this`records, this`leases, this`open
      ensures Model() == Next(limits, old(Model()), Sweeps)
    {
      RevokeEach(set id | id in leases && now >= records[id].validBefore);
      assert (set id | id in old(leases) && now >= old(records)[id].validBefore) == ExpiredLeases(old(Model()));
    }

    method Stop()
      requires leases <= records.Keys
      modifies this`records, this`leases, this`open
      ensures Model() == Next(limits, old(Model()), Stops)
    {
      RevokeEach(leases);
    }
  }
}
