/** The steps of `ensureExt4Volume` on the host's files
    (src/agent/data-volume.ts), and a call that nobody interrupts. */
module VolumeStore {
  import opened Basics
  import opened DataVolume

  class VolumeStore {
    var callers: seq<Caller>
    var images: seq<Image>
    var published: Option<Inode>
    var temporaries: map<CallerId, Inode>

    ghost function Model(): System
      reads this
    {
      System(callers, images, published, temporaries)
    }

    constructor (images: seq<Image>, published: Option<Inode>)
      requires published.Some? ==> published.value < |images| && Complete(images[published.value])
      ensures Initial(Model()) && this.images == images && this.published == published
    {
      this.callers, this.images, this.published, this.temporaries := [], images, published, map[];
    }

    /** The argument check at the start of a call. */
    method Begin(quota: int) returns (id: CallerId)
      modifies this`callers
      ensures id == |old(callers)| && Model() == Next(old(Model()), Ask(quota))
    {
      id := |callers|;
      if quota < MIN_VOLUME_BYTES || quota > MAX_VOLUME_BYTES {
        callers := callers + [Caller(quota, Done(Err(InvalidQuota)))];
      } else {
        callers := callers + [Caller(quota, Asked)];
      }
    }

    method MoveTo(id: CallerId, stage: Stage)
      requires id < |callers|
      modifies this`callers
      ensures Model() == WithStage(old(Model()), id, stage)
    {
      callers := callers[id := callers[id].(stage := stage)];
    }

    /** An error: calls that own a temporary name go through the clean-up. */
    method Refuse(id: CallerId, refusal: Refusal)
      requires id < |callers|
      modifies this`callers
      ensures Model() == WithError(old(Model()), id, refusal)
    {
      if Preparing(callers[id].stage) {
        MoveTo(id, Cleaning(Err(refusal)));
      } else {
        MoveTo(id, Done(Err(refusal)));
      }
    }

    method CheckSpace(id: CallerId, available: int)
      requires Enabled(Model(), Preflight(id, available))
      modifies this`callers
      ensures Model() == Next(old(Model()), Preflight(id, available))
    {
      if available < callers[id].quota {
        MoveTo(id, Done(Err(NoSpace)));
      } else {
        MoveTo(id, Looking(false));
      }
    }

    method OpenImage(id: CallerId)
      requires Enabled(Model(), Open(id))
      modifies this`callers
      ensures Model() == Next(old(Model()), Open(id))
    {
      var second := callers[id].stage.second;
      if published.Some? {
        MoveTo(id, Opened(second, published.value));
      } else if second {
        MoveTo(id, Cleaning(Err(IoError)));
      } else {
        MoveTo(id, Missing);
      }
    }

    method StatImage(id: CallerId)
      requires Enabled(Model(), Stat(id))
      modifies this`callers
      ensures Model() == Next(old(Model()), Stat(id))
    {
      var stage := callers[id].stage;
      if images[stage.inode].size != callers[id].quota {
        Refuse(id, WrongSize);
      } else {
        MoveTo(id, Sized(stage.second, stage.inode));
      }
    }

    method ReadImageMagic(id: CallerId)
      requires Enabled(Model(), ReadMagic(id))
      modifies this`callers
      ensures Model() == Next(old(Model()), ReadMagic(id))
    {
      var stage := callers[id].stage;
      if !images[stage.inode].magic {
        Refuse(id, NotExt4);
      } else if stage.second {
        MoveTo(id, Cleaning(Ok(())));
      } else {
        MoveTo(id, Done(Ok(())));
      }
    }

    method CreateTemporary(id: CallerId)
      requires Enabled(Model(), Create(id))
      modifies this
      ensures Model() == Next(old(Model()), Create(id))
    {
      temporaries := temporaries[id := |images|];
      images := images + [Image(0, false, false)];
      MoveTo(id, Created);
    }

    method TruncateTemporary(id: CallerId)
      requires Enabled(Model(), Truncate(id))
      modifies this
      ensures Model() == Next(old(Model()), Truncate(id))
    {
      images := images[temporaries[id] := Image(Max(0, callers[id].quota), false, false)];
      MoveTo(id, Truncated);
    }

    /** The formatter ran to its end, or failed with the file half written. */
    method Format(id: CallerId, succeeds: bool)
      requires Enabled(Model(), FormatDone(id))
      modifies this
      ensures Model() == if succeeds then Next(old(Model()), FormatDone(id))
                         else Next(Next(old(Model()), FormatSome(id)), Fail(id))
    {
      var inode := temporaries[id];
      if succeeds {
        images := images[inode := images[inode].(magic := true, formatted := true)];
        MoveTo(id, Formatted);
      } else {
        images := images[inode := images[inode].(magic := true)];
        Refuse(id, IoError);
      }
    }

    /** The atomic publication: a name that exists is never replaced. */
    method LinkTemporary(id: CallerId)
      requires Enabled(Model(), Link(id))
      modifies this
      ensures Model() == Next(old(Model()), Link(id))
    {
      if published.None? {
        published := Some(temporaries[id]);
      }
      MoveTo(id, Looking(true));
    }

    method RemoveTemporary(id: CallerId)
      requires Enabled(Model(), Clean(id))
      modifies this
      ensures Model() == Next(old(Model()), Clean(id))
    {
      temporaries := temporaries - {id};
      MoveTo(id, Done(callers[id].stage.result));
    }

    /** A call that nobody interrupts: it answers by the size of the image that
        was there, or publishes one of the size it was asked for. */
    method EnsureExt4Volume(quota: int, available: int, formats: bool) returns (r: Result<(), Refusal>)
      requires Invariant(Model())
      modifies this
      ensures Invariant(Model()) && temporaries == old(temporaries)
      ensures r == Outcome(old(Model()), quota, available, formats)
      ensures old(published).Some? || r.Err? ==> published == old(published)
      ensures old(published).None? && r.Ok? ==>
                published.Some? && published.value < |images| && images[published.value] == Image(quota, true, true)
    {
      StepKeepsInvariant(Model(), Ask(quota));
      var id := Begin(quota);
      assert id !in old(temporaries);
      if callers[id].stage.Done? {
        return callers[id].stage.result;
      }
      StepKeepsInvariant(Model(), Preflight(id, available));
      CheckSpace(id, available);
      if callers[id].stage.Done? {
        return callers[id].stage.result;
      }
      Look(id, quota);
      if callers[id].stage.Done? {
        return callers[id].stage.result;
      }
      r := MakeAndPublish(id, quota, formats);
      StepKeepsInvariant(Model(), Clean(id));
      RemoveTemporary(id);
    }

    /** From a missing image to the verdict on the one published. */
    method MakeAndPublish(id: CallerId, quota: nat, formats: bool) returns (r: Result<(), Refusal>)
      requires Invariant(Model()) && id < |callers| && callers[id].stage.Missing? && callers[id].quota == quota
      requires published.None?
      modifies this
      ensures Invariant(Model()) && id < |callers| && callers[id].stage == Cleaning(r)
      ensures temporaries == old(temporaries)[id := |old(images)|]
      ensures r == if formats then Ok(()) else Err(IoError)
      ensures r.Err? ==> published.None?
      ensures r.Ok? ==> published == Some(|old(images)|) && |images| == |old(images)| + 1 && images[|old(images)|] == Image(quota, true, true)
    {
      Prepare(id, quota, formats);
      if callers[id].stage.Formatted? {
        StepKeepsInvariant(Model(), Link(id));
        LinkTemporary(id);
        Look(id, quota);
      }
      r := callers[id].stage.result;
    }

    /** One look at the stable path, from opening it to the verdict. */
    method Look(id: CallerId, quota: nat)
      requires Invariant(Model()) && id < |callers| && callers[id].stage.Looking? && callers[id].quota == quota
      modifies this`callers
      ensures Invariant(Model()) && |callers| == |old(callers)| && callers[id].quota == quota
      ensures var second := old(callers)[id].stage.second;
        if published.None? then !second && callers[id].stage.Missing?
        else
          var verdict := if published.value < |images| && images[published.value].size == quota
                         then Ok(()) else Err(WrongSize);
          callers[id].stage == if second then Cleaning(verdict) else Done(verdict)
    {
      assert CallerInOrder(Model(), id);
      StepKeepsInvariant(Model(), Open(id));
      OpenImage(id);
      if callers[id].stage.Opened? {
        StepKeepsInvariant(Model(), Stat(id));
        StatImage(id);
        if callers[id].stage.Sized? {
          StepKeepsInvariant(Model(), ReadMagic(id));
          ReadImageMagic(id);
        }
      }
    }

    /** The caller's own image, from its creation to the end of the formatter. */
    method Prepare(id: CallerId, quota: nat, formats: bool)
      requires Invariant(Model()) && id < |callers| && callers[id].stage.Missing? && callers[id].quota == quota
      modifies this
      ensures Invariant(Model()) && |callers| == |old(callers)| && callers[id].quota == quota
      ensures published == old(published) && temporaries == old(temporaries)[id := |old(images)|]
      ensures callers[id].stage == if formats then Formatted else Cleaning(Err(IoError))
      ensures |images| == |old(images)| + 1 && (formats ==> images[|old(images)|] == Image(quota, true, true))
    {
      DraftReady(Model(), id);
      CreateTemporary(id);
      TruncateTemporary(id);
      FormattingKeepsInvariant(Model(), id);
      Format(id, formats);
    }
  }

  lemma DraftReady(s: System, id: CallerId)
    requires Invariant(s) && id < |s.callers| && s.callers[id].stage.Missing?
    ensures var m := Next(s, Create(id));
      var t := Next(m, Truncate(id));
      && Enabled(s, Create(id)) && Enabled(m, Truncate(id)) && Invariant(t)
      && s.callers[id].quota >= 0
      && t == s.(callers := s.callers[id := Caller(s.callers[id].quota, Truncated)],
                 images := s.images + [Image(s.callers[id].quota, false, false)],
                 temporaries := s.temporaries[id := |s.images|])
  {
    assert CallerInOrder(s, id);
    var m := Next(s, Create(id));
    StepKeepsInvariant(s, Create(id));
    StepKeepsInvariant(m, Truncate(id));
    assert s.callers[id := m.callers[id]][id := Caller(s.callers[id].quota, Truncated)] ==
           s.callers[id := Caller(s.callers[id].quota, Truncated)];
  }

  lemma FormattingKeepsInvariant(s: System, id: CallerId)
    requires Invariant(s) && id < |s.callers| && s.callers[id].stage.Truncated?
    ensures Enabled(s, FormatDone(id))
    ensures Invariant(Next(s, FormatDone(id))) && Invariant(Next(Next(s, FormatSome(id)), Fail(id)))
  {
    assert CallerInOrder(s, id);
    StepKeepsInvariant(s, FormatDone(id));
    StepKeepsInvariant(s, FormatSome(id));
    StepKeepsInvariant(Next(s, FormatSome(id)), Fail(id));
  }

  /** What a call alone answers, by what was published before it. */
  ghost function Outcome(s: System, quota: int, available: int, formats: bool): Result<(), Refusal> {
    if !QuotaAllowed(quota) then Err(InvalidQuota)
    else if available < quota then Err(NoSpace)
    else if s.published.Some? then (if PublishedSize(s) == Some(quota) then Ok(()) else Err(WrongSize))
    else if formats then Ok(()) else Err(IoError)
  }
}
