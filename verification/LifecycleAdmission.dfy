/** Capacity, claim order, admission limits and persistent volumes. */
module LifecycleAdmission {
  import opened Basics
  import opened Lifecycle
  import opened LifecycleFrames
  import opened LifecycleInvariants
  import opened LifecycleAgent

  // ---- Capacity ------------------------------------------------------------

  function Reserved(p: Progress): int {
    if (p.ClaimLoop? || p.ClaimWait?) && p.capacity > 0 then p.capacity else 0
  }

  /** Slots taken plus slots the reconciler still means to hand out. Rows stopped
      before they were claimed hold no slot, however much they inflate the count. */
  ghost predicate SlotsBounded(cfg: Config, s: System) {
    |Slots(s)| + Reserved(s.memory.reconciliation) <= cfg.maxRunning
  }

  /** Rows without a new claim take no slot. */
  lemma OnlyClaimsTakeSlots(cfg: Config, s: System, t: System)
    requires RowsOk(cfg, s) && RowsStep(cfg, s, t) && ClaimsPastQueue(s) && t.claims == s.claims
    ensures Slots(t) <= Slots(s)
  {
    forall id | id in Slots(t) ensures id in Slots(s) {
      var c :| c in t.claims && c.id == id;
      assert PastQueue(s, c.id);
      assert RowMove(s.now, s.rows[id], t.rows[id]);
    }
  }

  lemma AClaimTakesOneSlot(cfg: Config, s: System, a: Action)
    requires a.ReconcileClaimed? && Enabled(cfg, s, a)
    ensures Slots(Next(cfg, s, a)) <= Slots(s) + {a.id}
  {
    var t := Next(cfg, s, a);
    forall id | id in Slots(t) && id != a.id ensures id in Slots(s) {
      var c :| c in t.claims && c.id == id;
      assert c in s.claims;
    }
  }

  lemma OnlyCountingReserves(cfg: Config, s: System, a: Action)
    requires !a.ReconcileCounted?
    ensures Reserved(Next(cfg, s, a).memory.reconciliation) <= Reserved(s.memory.reconciliation)
    ensures a.ReconcileClaimed? && Enabled(cfg, s, a) ==>
      Reserved(Next(cfg, s, a).memory.reconciliation) == Reserved(s.memory.reconciliation) - 1
  {
    if !Reconciles(a) && !a.Restart? { ReconcilerFrame(cfg, s, a); }
  }

  lemma SlotsStayBounded(cfg: Config, s: System, a: Action)
    requires RowsOk(cfg, s) && RowsStep(cfg, s, Next(cfg, s, a)) && ClaimsPastQueue(s) && SlotsBounded(cfg, s)
    ensures SlotsBounded(cfg, Next(cfg, s, a))
  {
    var t := Next(cfg, s, a);
    if !a.ReconcileCounted? { OnlyCountingReserves(cfg, s, a); }
    if a.ReconcileClaimed? && Enabled(cfg, s, a) {
      AClaimTakesOneSlot(cfg, s, a);
      SubsetSize(Slots(t), Slots(s) + {a.id});
    } else {
      if !a.ReconcileClaimed? { ClaimsFrame(cfg, s, a); }
      OnlyClaimsTakeSlots(cfg, s, t);
      SubsetSize(Slots(t), Slots(s));
      SubsetSize(Slots(s), HoldingRows(s.rows));
    }
  }

  // ---- Claim order ---------------------------------------------------------

  ghost predicate ClaimsOrdered(s: System) {
    && (forall i, j :: 0 <= i < j < |s.claims| ==>
          s.claims[i].createdAt <= s.claims[j].createdAt && s.claims[i].id != s.claims[j].id)
    && (forall c :: c in s.claims ==> c.createdAt <= s.now)
    && (forall id, c :: Claimable(s, id) && c in s.claims ==> c.createdAt <= s.rows[id].createdAt)
  }

  lemma ClaimableWasClaimable(cfg: Config, s: System, t: System, id: Id)
    requires RowsOk(cfg, s) && RowsStep(cfg, s, t) && Claimable(t, id)
    ensures t.rows[id].createdAt >= s.now || (Claimable(s, id) && s.rows[id] == t.rows[id])
  {
    if id in s.rows { assert RowMove(s.now, s.rows[id], t.rows[id]); }
  }

  lemma AClaimKeepsOrder(cfg: Config, s: System, id: Id)
    requires RowsOk(cfg, s) && ClaimsPastQueue(s) && ClaimsOrdered(s)
    requires Enabled(cfg, s, ReconcileClaimed(id))
    ensures ClaimsOrdered(Next(cfg, s, ReconcileClaimed(id)))
  {
    var t := Next(cfg, s, ReconcileClaimed(id));
    assert RowOk(cfg, s, id);
    assert t.claims == s.claims + [Claim(id, s.rows[id].createdAt)];
    forall c | c in s.claims ensures c.id != id { assert PastQueue(s, c.id); }
    forall other | Claimable(t, other) ensures Claimable(s, other) && s.rows[other] == t.rows[other] {}
  }

  lemma ClaimsStayOrdered(cfg: Config, s: System, a: Action)
    requires RowsOk(cfg, s) && RowsStep(cfg, s, Next(cfg, s, a)) && ClaimsPastQueue(s) && ClaimsOrdered(s)
    ensures ClaimsOrdered(Next(cfg, s, a))
  {
    var t := Next(cfg, s, a);
    if a.ReconcileClaimed? {
      if Enabled(cfg, s, a) { AClaimKeepsOrder(cfg, s, a.id); }
    } else {
      ClaimsFrame(cfg, s, a);
      forall id, c | Claimable(t, id) && c in t.claims ensures c.createdAt <= t.rows[id].createdAt {
        ClaimableWasClaimable(cfg, s, t, id);
      }
    }
  }

  // ---- Admission limits ----------------------------------------------------

  /** Creations of one wallet (or network hash) in the closed day that starts at `from`. */
  function WalletWindow(s: System, wallet: Wallet, from: int): set<Id> {
    set id | id in s.creations && s.creations[id].wallet == wallet && from <= s.creations[id].at <= from + DAY
  }

  function IpWindow(s: System, ip: IpHash, from: int): set<Id> {
    set id | id in s.creations && s.creations[id].ip == ip && from <= s.creations[id].at <= from + DAY
  }

  ghost predicate WalletWithinLimits(cfg: Config, s: System, wallet: Wallet) {
    |ActiveOfWallet(s.rows, wallet)| <= cfg.maxActivePerWallet &&
    forall from :: |WalletWindow(s, wallet, from)| <= cfg.dailyPerWallet
  }

  ghost predicate IpWithinLimits(cfg: Config, s: System, ip: IpHash) {
    |ActiveOfIp(s.rows, ip)| <= cfg.maxActivePerIp &&
    forall from :: |IpWindow(s, ip, from)| <= cfg.dailyPerIp
  }

  ghost predicate AdmissionOk(cfg: Config, s: System) {
    && (forall wallet :: WalletWithinLimits(cfg, s, wallet))
    && (forall ip :: IpWithinLimits(cfg, s, ip))
    && |QueuedRows(s.rows)| <= cfg.maxQueue
  }

  ghost predicate Admits(cfg: Config, s: System, a: Action) {
    a.Create? && Enabled(cfg, s, a)
  }

  /** The steps that add no row take none into the counts. */
  lemma NoRowAdded(cfg: Config, s: System, t: System)
    requires RowsStep(cfg, s, t) && t.creations == s.creations
    ensures QueuedRows(t.rows) <= QueuedRows(s.rows)
    ensures forall w :: ActiveOfWallet(t.rows, w) <= ActiveOfWallet(s.rows, w)
    ensures forall ip :: ActiveOfIp(t.rows, ip) <= ActiveOfIp(s.rows, ip)
  {
    forall id | id in t.rows ensures id in s.rows && RowMove(s.now, s.rows[id], t.rows[id]) {}
  }

  /** A window that contains the present reaches back at most a day, so every older
      creation in it still has its row and was counted. */
  lemma WindowWasCounted(cfg: Config, s: System, wallet: Wallet, ip: IpHash, from: int)
    requires RowsOk(cfg, s) && from <= s.now <= from + DAY
    ensures WalletWindow(s, wallet, from) <= RecentOfWallet(s.rows, wallet, s.now - DAY)
    ensures IpWindow(s, ip, from) <= RecentOfIp(s.rows, ip, s.now - DAY)
  {
    forall id | id in s.creations && from <= s.creations[id].at
      ensures id in s.rows && RowOk(cfg, s, id)
    {
      assert CreationOk(s, id);
    }
  }

  /** What an admission adds: one queued row and its creation record. */
  ghost predicate AddsRow(s: System, t: System, id: Id, row: Row) {
    && id !in s.creations && id !in s.rows && row.state.Queued? && row.createdAt == s.now
    && t.rows == s.rows[id := row]
    && t.creations == s.creations[id := Creation(row.wallet, row.ip, s.now)]
  }

  lemma AdmissionAddsRow(cfg: Config, s: System, a: Action)
    requires RowsOk(cfg, s) && Admits(cfg, s, a)
    ensures var t := Next(cfg, s, a);
      a.id in t.rows && AddsRow(s, t, a.id, t.rows[a.id]) && t.rows[a.id].wallet == a.wallet && t.rows[a.id].ip == a.ip
  {
    forall id | id in s.rows ensures id in s.creations { assert RowOk(cfg, s, id); }
  }

  lemma WalletWindowKept(cfg: Config, s: System, t: System, id: Id, row: Row, wallet: Wallet, from: int)
    requires RowsOk(cfg, s) && AddsRow(s, t, id, row) && |WalletWindow(s, wallet, from)| <= cfg.dailyPerWallet
    requires |RecentOfWallet(s.rows, row.wallet, s.now - DAY)| < cfg.dailyPerWallet
    ensures |WalletWindow(t, wallet, from)| <= cfg.dailyPerWallet
  {
    if wallet == row.wallet && from <= s.now <= from + DAY {
      WindowWasCounted(cfg, s, wallet, row.ip, from);
      SubsetSize(WalletWindow(s, wallet, from), RecentOfWallet(s.rows, wallet, s.now - DAY));
      assert WalletWindow(t, wallet, from) == WalletWindow(s, wallet, from) + {id};
    } else {
      assert WalletWindow(t, wallet, from) == WalletWindow(s, wallet, from);
    }
  }

  lemma IpWindowKept(cfg: Config, s: System, t: System, id: Id, row: Row, ip: IpHash, from: int)
    requires RowsOk(cfg, s) && AddsRow(s, t, id, row) && |IpWindow(s, ip, from)| <= cfg.dailyPerIp
    requires |RecentOfIp(s.rows, row.ip, s.now - DAY)| < cfg.dailyPerIp
    ensures |IpWindow(t, ip, from)| <= cfg.dailyPerIp
  {
    if ip == row.ip && from <= s.now <= from + DAY {
      WindowWasCounted(cfg, s, row.wallet, ip, from);
      SubsetSize(IpWindow(s, ip, from), RecentOfIp(s.rows, ip, s.now - DAY));
      assert IpWindow(t, ip, from) == IpWindow(s, ip, from) + {id};
    } else {
      assert IpWindow(t, ip, from) == IpWindow(s, ip, from);
    }
  }

  lemma AdmissionKeepsWallet(cfg: Config, s: System, t: System, id: Id, row: Row, wallet: Wallet)
    requires RowsOk(cfg, s) && AddsRow(s, t, id, row) && WalletWithinLimits(cfg, s, wallet)
    requires |RecentOfWallet(s.rows, row.wallet, s.now - DAY)| < cfg.dailyPerWallet
    requires |ActiveOfWallet(s.rows, row.wallet)| < cfg.maxActivePerWallet
    ensures WalletWithinLimits(cfg, t, wallet)
  {
    var added: set<Id> := if wallet == row.wallet then {id} else {};
    assert ActiveOfWallet(t.rows, wallet) == ActiveOfWallet(s.rows, wallet) + added;
    forall from ensures |WalletWindow(t, wallet, from)| <= cfg.dailyPerWallet {
      WalletWindowKept(cfg, s, t, id, row, wallet, from);
    }
  }

  lemma AdmissionKeepsIp(cfg: Config, s: System, t: System, id: Id, row: Row, ip: IpHash)
    requires RowsOk(cfg, s) && AddsRow(s, t, id, row) && IpWithinLimits(cfg, s, ip)
    requires |RecentOfIp(s.rows, row.ip, s.now - DAY)| < cfg.dailyPerIp
    requires |ActiveOfIp(s.rows, row.ip)| < cfg.maxActivePerIp
    ensures IpWithinLimits(cfg, t, ip)
  {
    var added: set<Id> := if ip == row.ip then {id} else {};
    assert ActiveOfIp(t.rows, ip) == ActiveOfIp(s.rows, ip) + added;
    forall from ensures |IpWindow(t, ip, from)| <= cfg.dailyPerIp {
      IpWindowKept(cfg, s, t, id, row, ip, from);
    }
  }

  lemma AdmissionFrame(cfg: Config, s: System, t: System)
    requires AdmissionOk(cfg, s) && RowsStep(cfg, s, t) && t.creations == s.creations
    ensures AdmissionOk(cfg, t)
  {
    NoRowAdded(cfg, s, t);
    SubsetSize(QueuedRows(t.rows), QueuedRows(s.rows));
    forall w ensures WalletWithinLimits(cfg, t, w) {
      assert WalletWithinLimits(cfg, s, w);
      SubsetSize(ActiveOfWallet(t.rows, w), ActiveOfWallet(s.rows, w));
      forall from ensures |WalletWindow(t, w, from)| <= cfg.dailyPerWallet {
        assert WalletWindow(t, w, from) == WalletWindow(s, w, from);
      }
    }
    forall ip ensures IpWithinLimits(cfg, t, ip) {
      assert IpWithinLimits(cfg, s, ip);
      SubsetSize(ActiveOfIp(t.rows, ip), ActiveOfIp(s.rows, ip));
      forall from ensures |IpWindow(t, ip, from)| <= cfg.dailyPerIp {
        assert IpWindow(t, ip, from) == IpWindow(s, ip, from);
      }
    }
  }

  /** What an admission did, and that it was not refused, keep every limit. */
  lemma AdmissionKeepsLimits(cfg: Config, s: System, t: System, id: Id, row: Row)
    requires RowsOk(cfg, s) && AddsRow(s, t, id, row) && AdmissionOk(cfg, s)
    requires |RecentOfWallet(s.rows, row.wallet, s.now - DAY)| < cfg.dailyPerWallet
    requires |ActiveOfWallet(s.rows, row.wallet)| < cfg.maxActivePerWallet
    requires |RecentOfIp(s.rows, row.ip, s.now - DAY)| < cfg.dailyPerIp
    requires |ActiveOfIp(s.rows, row.ip)| < cfg.maxActivePerIp
    requires |QueuedRows(s.rows)| < cfg.maxQueue
    ensures AdmissionOk(cfg, t)
  {
    forall wallet ensures WalletWithinLimits(cfg, t, wallet) {
      AdmissionKeepsWallet(cfg, s, t, id, row, wallet);
    }
    forall ip ensures IpWithinLimits(cfg, t, ip) {
      AdmissionKeepsIp(cfg, s, t, id, row, ip);
    }
    SubsetSize(QueuedRows(t.rows), QueuedRows(s.rows) + {id});
  }

  lemma AdmissionKept(cfg: Config, s: System, a: Action)
    requires RowsOk(cfg, s) && RowsStep(cfg, s, Next(cfg, s, a)) && AdmissionOk(cfg, s)
    ensures AdmissionOk(cfg, Next(cfg, s, a))
  {
    var t := Next(cfg, s, a);
    if Admits(cfg, s, a) {
      AdmissionAddsRow(cfg, s, a);
      AdmissionKeepsLimits(cfg, s, t, a.id, t.rows[a.id]);
    } else {
      if !a.Create? { CreationsFrame(cfg, s, a); }
      AdmissionFrame(cfg, s, t);
    }
  }

  // ---- Persistent volumes --------------------------------------------------

  /** A row's volume is its wallet's own, and undestroyed while the row is active. */
  ghost predicate RowVolumeOk(s: System, id: Id)
    requires id in s.rows
  {
    var r := s.rows[id];
    r.volume.Some? ==>
      && r.volume.value in s.volumes && s.volumes[r.volume.value].wallet == r.wallet
      && (r.state.Active() ==> s.volumes[r.volume.value].destroyedAt.None?)
  }

  /** A volume whose destruction awaits the agent is undestroyed, unattached, and
      locked against attachment by its wallet's entry in the set. */
  ghost predicate DestroyOk(s: System, t: Ticket)
    requires t in s.memory.destroyCalls
  {
    var call := s.memory.destroyCalls[t];
    && t < s.nextTicket
    && call.wallet in s.memory.destroyingVolumes
    && call.volume in LiveVolumes(s.volumes, call.wallet)
    && !Attached(s.rows, call.volume)
  }

  ghost predicate VolumesOk(s: System) {
    && (forall id :: id in s.rows ==> RowVolumeOk(s, id))
    && (forall w, v1, v2 :: v1 in LiveVolumes(s.volumes, w) && v2 in LiveVolumes(s.volumes, w) ==> v1 == v2)
    && (forall t :: t in s.memory.destroyCalls ==> DestroyOk(s, t))
    && (forall t1, t2 ::
          (t1 in s.memory.destroyCalls && t2 in s.memory.destroyCalls
           && s.memory.destroyCalls[t1].wallet == s.memory.destroyCalls[t2].wallet) ==> t1 == t2)
  }

  /** How one action may change the volumes: only a reported destruction ends one, and
      a row that appears is attached only to a live volume nobody is destroying. */
  ghost predicate VolumesStep(s: System, t: System) {
    && (forall v :: v in s.volumes ==>
          && v in t.volumes && t.volumes[v].wallet == s.volumes[v].wallet
          && (s.volumes[v].destroyedAt.None? && t.volumes[v].destroyedAt.Some? ==>
                exists k :: k in s.memory.destroyCalls && s.memory.destroyCalls[k].volume == v && k !in t.memory.destroyCalls)
          && (s.volumes[v].destroyedAt.Some? ==> t.volumes[v].destroyedAt.Some?))
    && (forall id :: id in t.rows && id !in s.rows && t.rows[id].volume.Some? ==>
          && t.rows[id].wallet !in s.memory.destroyingVolumes
          && t.rows[id].volume.value in LiveVolumes(t.volumes, t.rows[id].wallet))
  }

  lemma EveryActionIsAVolumesStep(cfg: Config, s: System, a: Action)
    requires VolumesOk(s)
    ensures VolumesStep(s, Next(cfg, s, a))
  {
    if !a.Create? { OnlyCreateAddsRows(cfg, s, a); }
    if !TouchesVolumes(a) { VolumesFrame(cfg, s, a); }
  }

  lemma RowVolumeKept(cfg: Config, s: System, t: System, id: Id)
    requires RowsStep(cfg, s, t) && VolumesStep(s, t) && VolumesOk(s) && id in t.rows
    ensures RowVolumeOk(t, id)
  {
    if id in s.rows {
      assert RowVolumeOk(s, id) && RowMove(s.now, s.rows[id], t.rows[id]);
      forall k | k in s.memory.destroyCalls ensures !Attached(s.rows, s.memory.destroyCalls[k].volume) {
        assert DestroyOk(s, k);
      }
    }
  }

  lemma OneLiveVolumePerWallet(cfg: Config, s: System, a: Action)
    requires VolumesOk(s)
    ensures var t := Next(cfg, s, a);
      forall w, v1, v2 :: v1 in LiveVolumes(t.volumes, w) && v2 in LiveVolumes(t.volumes, w) ==> v1 == v2
  {
    var t := Next(cfg, s, a);
    if a.Create? && a.persistent && Enabled(cfg, s, a) {
      assert t.volumes == AttachVolume(s, a.wallet, a.volume);
      forall w, v | v in LiveVolumes(t.volumes, w) ensures v in LiveVolumes(s.volumes, w) || (w == a.wallet && v == a.volume) {}
    } else {
      if !TouchesVolumes(a) { VolumesFrame(cfg, s, a); }
      forall w, v | v in LiveVolumes(t.volumes, w) ensures v in LiveVolumes(s.volumes, w) {}
    }
  }

  /** A destruction under way is either old and still locked, or starts with this action. */
  lemma DestroysAreOldOrNew(cfg: Config, s: System, a: Action, k: Ticket)
    requires VolumesOk(s) && k in Next(cfg, s, a).memory.destroyCalls
    ensures var t := Next(cfg, s, a); var call := t.memory.destroyCalls[k];
      && t.nextTicket >= s.nextTicket
      && call.wallet in t.memory.destroyingVolumes
      && ((k in s.memory.destroyCalls && s.memory.destroyCalls[k] == call)
          || (k < t.nextTicket && t.rows == s.rows && t.volumes == s.volumes
              && call.volume in LiveVolumes(s.volumes, call.wallet) && !Attached(s.rows, call.volume)))
  {
    if k in s.memory.destroyCalls { assert DestroyOk(s, k); }
    TicketsGrow(cfg, s, a);
    if !TouchesDestroys(a) { DestroysFrame(cfg, s, a); }
  }

  lemma DestroyKept(cfg: Config, s: System, t: System, k: Ticket)
    requires RowsStep(cfg, s, t) && VolumesStep(s, t) && VolumesOk(s)
    requires k in s.memory.destroyCalls && k in t.memory.destroyCalls && t.memory.destroyCalls[k] == s.memory.destroyCalls[k]
    ensures var call := t.memory.destroyCalls[k];
      call.volume in LiveVolumes(t.volumes, call.wallet) && !Attached(t.rows, call.volume)
  {
    var call := t.memory.destroyCalls[k];
    assert DestroyOk(s, k);
    forall j | j in s.memory.destroyCalls && s.memory.destroyCalls[j].volume == call.volume ensures j == k {
      assert DestroyOk(s, j);
    }
    forall id | id in t.rows && t.rows[id].volume == Some(call.volume) ensures !t.rows[id].state.Active() {
      if id in s.rows { assert RowMove(s.now, s.rows[id], t.rows[id]); }
    }
  }

  lemma DestroysKept(cfg: Config, s: System, a: Action)
    requires RowsStep(cfg, s, Next(cfg, s, a)) && VolumesStep(s, Next(cfg, s, a)) && VolumesOk(s)
    ensures var t := Next(cfg, s, a); forall k :: k in t.memory.destroyCalls ==> DestroyOk(t, k)
  {
    var t := Next(cfg, s, a);
    forall k | k in t.memory.destroyCalls ensures DestroyOk(t, k) {
      DestroysAreOldOrNew(cfg, s, a, k);
      if k in s.memory.destroyCalls && s.memory.destroyCalls[k] == t.memory.destroyCalls[k] {
        assert DestroyOk(s, k);
        DestroyKept(cfg, s, t, k);
      }
    }
  }

  lemma DestroysStayDistinct(cfg: Config, s: System, a: Action)
    requires VolumesOk(s)
    ensures var m := Next(cfg, s, a).memory;
      forall t1, t2 ::
        (t1 in m.destroyCalls && t2 in m.destroyCalls && m.destroyCalls[t1].wallet == m.destroyCalls[t2].wallet) ==> t1 == t2
  {
    forall k | k in s.memory.destroyCalls ensures s.memory.destroyCalls[k].wallet in s.memory.destroyingVolumes {
      assert DestroyOk(s, k);
    }
    if !TouchesDestroys(a) { DestroysFrame(cfg, s, a); }
  }

  lemma VolumesKept(cfg: Config, s: System, a: Action)
    requires RowsStep(cfg, s, Next(cfg, s, a)) && VolumesOk(s)
    ensures VolumesOk(Next(cfg, s, a))
  {
    var t := Next(cfg, s, a);
    EveryActionIsAVolumesStep(cfg, s, a);
    forall id | id in t.rows ensures RowVolumeOk(t, id) { RowVolumeKept(cfg, s, t, id); }
    OneLiveVolumePerWallet(cfg, s, a);
    DestroysKept(cfg, s, a);
    DestroysStayDistinct(cfg, s, a);
  }
}
