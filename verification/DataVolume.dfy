/** Publication of a workspace's disk image (src/agent/data-volume.ts): any
    number of callers prepare images under names of their own and race to link
    one at the stable path. There is no lock. */
module DataVolume {
  import opened Basics

  const MIN_VOLUME_BYTES := 16 * 1024 * 1024
  const MAX_VOLUME_BYTES := 5 * 1024 * 1024 * 1024

  type CallerId = nat
  type Inode = nat

  /** An image file. A formatter that is interrupted may leave the superblock's
      magic number in a file that is not a complete file system. */
  datatype Image = Image(size: nat, magic: bool, formatted: bool)

  datatype Refusal = InvalidQuota | NoSpace | WrongSize | NotExt4 | IoError

  /** How far a call has come; every stage ends at an await. `second` tells the
      look at the stable path after publishing from the one before. */
  datatype Stage =
    | Asked
    | Looking(second: bool)
    | Opened(second: bool, inode: Inode)
    | Sized(second: bool, inode: Inode)
    | Missing
    | Created
    | Truncated
    | Formatted
    | Cleaning(result: Result<(), Refusal>)
    | Done(result: Result<(), Refusal>)

  datatype Caller = Caller(quota: int, stage: Stage)

  /** `published` is what the stable path is bound to, `temporaries` the callers'
      own names. */
  datatype System = System(
    callers: seq<Caller>,
    images: seq<Image>,
    published: Option<Inode>,
    temporaries: map<CallerId, Inode>)

  datatype Action =
    | Ask(quota: int)
    | Preflight(id: CallerId, available: int)
    | Open(id: CallerId)
    | Stat(id: CallerId)
    | ReadMagic(id: CallerId)
    | Create(id: CallerId)
    | Truncate(id: CallerId)
    | FormatSome(id: CallerId)
    | FormatDone(id: CallerId)
    | Link(id: CallerId)
    | Fail(id: CallerId)
    | Clean(id: CallerId)

  predicate QuotaAllowed(quota: int) {
    MIN_VOLUME_BYTES <= quota <= MAX_VOLUME_BYTES
  }

  /** A call that has a file of its own, or may have one. */
  predicate Preparing(stage: Stage) {
    stage.Created? || stage.Truncated? || stage.Formatted? || stage.Cleaning?
    || ((stage.Looking? || stage.Opened? || stage.Sized?) && stage.second)
  }

  predicate Enabled(s: System, a: Action) {
    a.Ask? ||
    ( && a.id < |s.callers|
      && var stage := s.callers[a.id].stage;
         match a
         case Preflight(_, _) => stage.Asked?
         case Open(_) => stage.Looking?
         case Stat(_) => stage.Opened? && stage.inode < |s.images|
         case ReadMagic(_) => stage.Sized? && stage.inode < |s.images|
         case Create(_) => stage.Missing?
         case Truncate(id) => stage.Created? && OwnsImage(s, id)
         case FormatSome(id) => stage.Truncated? && OwnsImage(s, id)
         case FormatDone(id) => stage.Truncated? && OwnsImage(s, id)
         case Link(id) => stage.Formatted? && OwnsImage(s, id)
         case Fail(_) => !stage.Cleaning? && !stage.Done?
         case Clean(_) => stage.Cleaning? )
  }

  predicate OwnsImage(s: System, id: CallerId) {
    id in s.temporaries && s.temporaries[id] < |s.images|
  }

  function WithStage(s: System, id: CallerId, stage: Stage): System
    requires id < |s.callers|
  {
    s.(callers := s.callers[id := s.callers[id].(stage := stage)])
  }

  /** An error before the temporary name exists ends the call at once; later it
      goes through the clean-up. */
  function WithError(s: System, id: CallerId, refusal: Refusal): System
    requires id < |s.callers|
  {
    WithStage(s, id, if Preparing(s.callers[id].stage) then Cleaning(Err(refusal)) else Done(Err(refusal)))
  }

  function WithImage(s: System, id: CallerId, image: Image): System
    requires OwnsImage(s, id)
  {
    s.(images := s.images[s.temporaries[id] := image])
  }

  function Perform(s: System, a: Action): System
    requires Enabled(s, a)
  {
    match a
    case Ask(quota) =>
      s.(callers := s.callers + [Caller(quota, if QuotaAllowed(quota) then Asked else Done(Err(InvalidQuota)))])
    case Preflight(id, available) =>
      WithStage(s, id, if available < s.callers[id].quota then Done(Err(NoSpace)) else Looking(false))
    case Open(id) =>
      var second := s.callers[id].stage.second;
      if s.published.Some? then WithStage(s, id, Opened(second, s.published.value))
      else if second then WithStage(s, id, Cleaning(Err(IoError)))
      else WithStage(s, id, Missing)
    case Stat(id) =>
      var stage := s.callers[id].stage;
      if s.images[stage.inode].size != s.callers[id].quota then WithError(s, id, WrongSize)
      else WithStage(s, id, Sized(stage.second, stage.inode))
    case ReadMagic(id) =>
      var stage := s.callers[id].stage;
      if !s.images[stage.inode].magic then WithError(s, id, NotExt4)
      else WithStage(s, id, if stage.second then Cleaning(Ok(())) else Done(Ok(())))
    case Create(id) =>
      WithStage(s, id, Created).(images := s.images + [Image(0, false, false)],
                                 temporaries := s.temporaries[id := |s.images|])
    case Truncate(id) =>
      WithImage(WithStage(s, id, Truncated), id, Image(Max(0, s.callers[id].quota), false, false))
    case FormatSome(id) =>
      WithImage(s, id, s.images[s.temporaries[id]].(magic := true))
    case FormatDone(id) =>
      WithImage(WithStage(s, id, Formatted), id, s.images[s.temporaries[id]].(magic := true, formatted := true))
    case Link(id) =>
      WithStage(s, id, Looking(true)).(published := if s.published.None? then Some(s.temporaries[id]) else s.published)
    case Fail(id) => WithError(s, id, IoError)
    case Clean(id) =>
      WithStage(s, id, Done(s.callers[id].stage.result)).(temporaries := s.temporaries - {id})
  }

  function Next(s: System, a: Action): System {
    if Enabled(s, a) then Perform(s, a) else s
  }

  function Execute(s: System, actions: seq<Action>): System
    decreases |actions|
  {
    if actions == [] then s else Execute(Next(s, actions[0]), actions[1..])
  }

  /* ---- What every step keeps ---- */

  ghost predicate Complete(image: Image) {
    image.magic && image.formatted && QuotaAllowed(image.size)
  }

  /** The stable path is bound, if at all, to a complete image. */
  ghost predicate PublishedIsComplete(s: System) {
    s.published.Some? ==> s.published.value < |s.images| && Complete(s.images[s.published.value])
  }

  /** What one call knows and owns. */
  ghost predicate CallerInOrder(s: System, id: CallerId)
    requires id < |s.callers|
  {
    var caller := s.callers[id];
    && (caller.stage == Done(Err(InvalidQuota)) || QuotaAllowed(caller.quota))
    && (id in s.temporaries ==> Preparing(caller.stage) && s.temporaries[id] < |s.images|)
    && match caller.stage
       case Looking(second) => second ==> s.published.Some?
       case Opened(_, inode) => s.published == Some(inode)
       case Sized(_, inode) => s.published == Some(inode) && PublishedSize(s) == Some(caller.quota)
       case Created => OwnsDraft(s, id)
       case Truncated => OwnsDraft(s, id) && s.images[s.temporaries[id]].size == caller.quota
       case Formatted =>
         OwnsImage(s, id) && Complete(s.images[s.temporaries[id]]) && s.images[s.temporaries[id]].size == caller.quota
       case Cleaning(result) => Verdict(s, caller.quota, result)
       case Done(result) => Verdict(s, caller.quota, result)
       case Asked => true
       case Missing => true
  }

  /** The file is the caller's own and not published. */
  ghost predicate OwnsDraft(s: System, id: CallerId) {
    OwnsImage(s, id) && s.published != Some(s.temporaries[id])
  }

  ghost function PublishedSize(s: System): Option<int> {
    if s.published.Some? && s.published.value < |s.images| then Some(s.images[s.published.value].size) else None
  }

  /** What the answer of a call says about the published image. */
  ghost predicate Verdict(s: System, quota: int, result: Result<(), Refusal>) {
    match result
    case Ok(_) => PublishedSize(s) == Some(quota)
    case Err(WrongSize) => s.published.Some? && PublishedSize(s) != Some(quota)
    case Err(NotExt4) => false
    case Err(_) => true
  }

  /** No two calls prepare the same file. */
  ghost predicate FilesAreOwn(s: System) {
    && (forall id :: id in s.temporaries ==> id < |s.callers| && s.temporaries[id] < |s.images|)
    && (forall i, j :: i in s.temporaries && j in s.temporaries && i != j ==> s.temporaries[i] != s.temporaries[j])
  }

  ghost predicate CallersInOrder(s: System) {
    forall id :: 0 <= id < |s.callers| ==> CallerInOrder(s, id)
  }

  ghost predicate Invariant(s: System) {
    PublishedIsComplete(s) && FilesAreOwn(s) && CallersInOrder(s)
  }

  /** A step of one call leaves every other call, its file and a published image
      alone. */
  ghost predicate Undisturbed(s: System, t: System, id: CallerId) {
    && |s.callers| <= |t.callers| && |s.images| <= |t.images|
    && (forall i :: 0 <= i < |s.callers| && i != id ==> t.callers[i] == s.callers[i])
    && (forall i :: i != id ==> (i in t.temporaries <==> i in s.temporaries))
    && (forall i :: i in s.temporaries && i != id && s.temporaries[i] < |s.images| ==>
          t.temporaries[i] == s.temporaries[i] && t.images[s.temporaries[i]] == s.images[s.temporaries[i]])
    && (s.published.Some? ==> t.published == s.published)
    && (s.published.Some? && s.published.value < |s.images| ==>
          t.images[s.published.value] == s.images[s.published.value])
    && (s.published.None? && t.published.Some? ==>
          id in s.temporaries && t.published.value == s.temporaries[id])
  }

  function Mover(s: System, a: Action): CallerId {
    if a.Ask? then |s.callers| else a.id
  }

  lemma StepsAreUndisturbing(s: System, a: Action)
    requires Invariant(s) && Enabled(s, a)
    ensures Undisturbed(s, Perform(s, a), Mover(s, a))
  {
    if !a.Ask? {
      assert CallerInOrder(s, a.id);
    }
  }

  lemma OthersStayInOrder(s: System, t: System, id: CallerId, i: CallerId)
    requires Invariant(s) && Undisturbed(s, t, id) && i != id && i < |s.callers|
    ensures CallerInOrder(t, i)
  {
    assert CallerInOrder(s, i);
  }

  lemma MoverStaysInOrder(s: System, a: Action)
    requires Invariant(s) && Enabled(s, a)
    ensures CallerInOrder(Perform(s, a), Mover(s, a))
  {
    if !a.Ask? {
      assert CallerInOrder(s, a.id);
    }
  }

  lemma FilesStayOwn(s: System, a: Action)
    requires Invariant(s) && Enabled(s, a)
    ensures FilesAreOwn(Perform(s, a))
  {
  }

  lemma PublicationIsComplete(s: System, a: Action)
    requires Invariant(s) && Enabled(s, a)
    ensures PublishedIsComplete(Perform(s, a))
  {
    if !a.Ask? {
      assert CallerInOrder(s, a.id);
    }
  }

  lemma StepKeepsInvariant(s: System, a: Action)
    requires Invariant(s)
    ensures Invariant(Next(s, a))
  {
    if Enabled(s, a) {
      var t := Perform(s, a);
      StepsAreUndisturbing(s, a);
      MoverStaysInOrder(s, a);
      FilesStayOwn(s, a);
      PublicationIsComplete(s, a);
      forall i | 0 <= i < |t.callers| ensures CallerInOrder(t, i) {
        if i != Mover(s, a) {
          OthersStayInOrder(s, t, Mover(s, a), i);
        }
      }
    }
  }

  /* ---- Whole runs ---- */

  /** Before anyone has called: nothing, or an image published earlier. */
  ghost predicate Initial(s: System) {
    s.callers == [] && s.temporaries == map[] && PublishedIsComplete(s)
  }

  lemma {:induction false} RunsKeepInvariant(s: System, actions: seq<Action>)
    requires Invariant(s)
    ensures Invariant(Execute(s, actions))
    decreases |actions|
  {
    if actions != [] {
      StepKeepsInvariant(s, actions[0]);
      RunsKeepInvariant(Next(s, actions[0]), actions[1..]);
    }
  }

  /** The stable path is only ever bound to a complete file system of an allowed
      size. */
  lemma OnlyCompleteImagesArePublished(s: System, actions: seq<Action>)
    requires Initial(s)
    ensures var t := Execute(s, actions);
      t.published.Some? ==> t.published.value < |t.images| && Complete(t.images[t.published.value])
  {
    RunsKeepInvariant(s, actions);
  }

  /** Once bound, the stable path stays bound to the same file, and the file
      never changes. */
  lemma {:induction false} PublicationIsFinal(s: System, before: seq<Action>, after: seq<Action>)
    requires Initial(s) && Execute(s, before).published.Some?
    ensures var t := Execute(s, before);
      var u := Execute(t, after);
      && u.published == t.published
      && t.published.value < |t.images| && t.published.value < |u.images|
      && u.images[t.published.value] == t.images[t.published.value]
  {
    RunsKeepInvariant(s, before);
    PublishedStays(Execute(s, before), after);
  }

  lemma {:induction false} PublishedStays(t: System, actions: seq<Action>)
    requires Invariant(t) && t.published.Some?
    ensures var u := Execute(t, actions);
      && u.published == t.published && t.published.value < |u.images|
      && u.images[t.published.value] == t.images[t.published.value]
    decreases |actions|
  {
    if actions != [] {
      if Enabled(t, actions[0]) {
        StepsAreUndisturbing(t, actions[0]);
      }
      StepKeepsInvariant(t, actions[0]);
      PublishedStays(Next(t, actions[0]), actions[1..]);
    }
  }

  /** Every caller that succeeds sees a complete image of the size it asked for;
      a caller told that the size is wrong did ask for another size; and no
      caller ever finds the published image unformatted. */
  lemma AnswersAreTrue(s: System, actions: seq<Action>, id: CallerId)
    requires Initial(s)
    requires var t := Execute(s, actions); id < |t.callers| && t.callers[id].stage.Done?
    ensures var t := Execute(s, actions);
      var quota := t.callers[id].quota;
      match t.callers[id].stage.result
      case Ok(_) =>
        && t.published.Some? && t.published.value < |t.images|
        && Complete(t.images[t.published.value]) && t.images[t.published.value].size == quota
      case Err(WrongSize) =>
        t.published.Some? && t.published.value < |t.images| && t.images[t.published.value].size != quota
      case Err(NotExt4) => false
      case Err(_) => true
  {
    RunsKeepInvariant(s, actions);
    assert CallerInOrder(Execute(s, actions), id);
  }

  /** Two callers that both succeed asked for the same size. */
  lemma WinnersAgree(s: System, actions: seq<Action>, i: CallerId, j: CallerId)
    requires Initial(s)
    requires var t := Execute(s, actions);
      && i < |t.callers| && j < |t.callers|
      && t.callers[i].stage == Done(Ok(())) && t.callers[j].stage == Done(Ok(()))
    ensures var t := Execute(s, actions); t.callers[i].quota == t.callers[j].quota
  {
    RunsKeepInvariant(s, actions);
    assert CallerInOrder(Execute(s, actions), i) && CallerInOrder(Execute(s, actions), j);
  }

  /** When every call is over, no temporary file is left. */
  lemma NothingIsLeftBehind(s: System, actions: seq<Action>)
    requires Initial(s)
    requires var t := Execute(s, actions); forall id :: 0 <= id < |t.callers| ==> t.callers[id].stage.Done?
    ensures Execute(s, actions).temporaries == map[]
  {
    RunsKeepInvariant(s, actions);
    var t := Execute(s, actions);
    forall id | id in t.temporaries ensures id < |t.callers| && !t.callers[id].stage.Done? {
      assert CallerInOrder(t, id);
    }
  }

  /* ---- Single calls ---- */

  /** A call is taken up exactly for 16 MiB to 5 GiB, and else refused at once. */
  lemma TakenUpExactly(s: System, quota: int)
    ensures var t := Next(s, Ask(quota));
      |t.callers| == |s.callers| + 1 &&
      t.callers[|s.callers|] == Caller(quota, if 16_777_216 <= quota <= 5_368_709_120 then Asked else Done(Err(InvalidQuota)))
  {
  }

  /** It goes on exactly if its size is free on the disk. */
  lemma SpaceIsAsked(s: System, id: CallerId, available: int)
    requires id < |s.callers| && s.callers[id].stage.Asked?
    ensures Next(s, Preflight(id, available)).callers[id].stage
         == if available >= s.callers[id].quota then Looking(false) else Done(Err(NoSpace))
  {
  }

  lemma StageTwice(s: System, id: CallerId, first: Stage, second: Stage)
    requires id < |s.callers|
    ensures WithStage(WithStage(s, id, first), id, second) == WithStage(s, id, second)
  {
    assert WithStage(WithStage(s, id, first), id, second).callers == WithStage(s, id, second).callers;
  }

  /** What a look at the published image comes to for a caller that asked for `quota`. */
  function LookResult(s: System, quota: int): Result<(), Refusal>
    requires s.published.Some? && s.published.value < |s.images|
  {
    if s.images[s.published.value].size == quota then Ok(()) else Err(WrongSize)
  }

  /** The look, step by step: the file is opened, then its size decides, then its magic. */
  lemma TheLook(s: System, id: CallerId, second: bool)
    requires id < |s.callers| && s.callers[id].stage == Looking(second)
    requires s.published.Some? && s.published.value < |s.images| && s.images[s.published.value].magic
    ensures var inode := s.published.value; var quota := s.callers[id].quota;
      var found := WithStage(s, id, Opened(second, inode));
      var sized := WithStage(s, id, Sized(second, inode));
      && Next(s, Open(id)) == found
      && (s.images[inode].size != quota ==>
            Next(found, Stat(id)) == WithStage(s, id, if second then Cleaning(Err(WrongSize)) else Done(Err(WrongSize))))
      && (s.images[inode].size == quota ==>
            && Next(found, Stat(id)) == sized
            && Next(sized, ReadMagic(id)) == WithStage(s, id, if second then Cleaning(Ok(())) else Done(Ok(()))))
  {
    var inode := s.published.value;
    StageTwice(s, id, Opened(second, inode), Sized(second, inode));
    StageTwice(s, id, Opened(second, inode), if second then Cleaning(Err(WrongSize)) else Done(Err(WrongSize)));
    StageTwice(s, id, Sized(second, inode), if second then Cleaning(Ok(())) else Done(Ok(())));
  }

  /** A call that finds an image at the stable path is answered by its size, and nothing
      else changes. */
  lemma APublishedImageAnswers(s: System, id: CallerId)
    requires Invariant(s) && id < |s.callers| && s.callers[id].stage == Looking(false) && s.published.Some?
    ensures var t := Next(Next(s, Open(id)), Stat(id));
      (if s.images[s.published.value].size == s.callers[id].quota then Next(t, ReadMagic(id)) else t)
        == WithStage(s, id, Done(LookResult(s, s.callers[id].quota)))
  {
    TheLook(s, id, false);
  }

  /** Without an image at the stable path, a first look goes on to prepare one. */
  lemma NothingFound(s: System, id: CallerId)
    requires id < |s.callers| && s.callers[id].stage == Looking(false) && s.published.None?
    ensures Next(s, Open(id)) == WithStage(s, id, Missing)
  {
  }

  /** The caller has made a file of its own. */
  function Drafted(s: System, id: CallerId, stage: Stage, image: Image): System
    requires id < |s.callers|
  {
    WithStage(s, id, stage).(images := s.images + [image], temporaries := s.temporaries[id := |s.images|])
  }

  lemma DraftTwice(s: System, id: CallerId, a: Stage, b: Stage, x: Image, y: Image)
    requires id < |s.callers|
    ensures var d := Drafted(s, id, a, x);
      WithImage(WithStage(d, id, b), id, y) == Drafted(s, id, b, y) && WithStage(d, id, b) == Drafted(s, id, b, x)
  {
    StageTwice(s, id, a, b);
    assert (s.images + [x])[|s.images| := y] == s.images + [y];
    assert WithStage(Drafted(s, id, a, x), id, b).callers == WithStage(s, id, b).callers;
  }

  /** A call that finds nothing makes a complete image of its size under a name of its own,
      and touches no other. */
  lemma ACallPrepares(s: System, id: CallerId)
    requires id < |s.callers| && s.callers[id].stage == Missing
    ensures var quota := s.callers[id].quota;
      && Next(s, Create(id)) == Drafted(s, id, Created, Image(0, false, false))
      && (quota >= 0 ==> Next(Drafted(s, id, Created, Image(0, false, false)), Truncate(id)) == Drafted(s, id, Truncated, Image(quota, false, false)))
      && (quota >= 0 ==> Next(Drafted(s, id, Truncated, Image(quota, false, false)), FormatDone(id)) == Drafted(s, id, Formatted, Image(quota, true, true)))
  {
    var quota := Max(0, s.callers[id].quota);
    DraftTwice(s, id, Created, Truncated, Image(0, false, false), Image(quota, false, false));
    DraftTwice(s, id, Truncated, Formatted, Image(quota, false, false), Image(quota, true, true));
  }

  /** Linking publishes the image unless one is published already, and looks again. */
  lemma LinkingPublishes(s: System, id: CallerId, image: Image)
    requires id < |s.callers|
    ensures Next(Drafted(s, id, Formatted, image), Link(id)) ==
      Drafted(s, id, Looking(true), image).(published := if s.published.Some? then s.published else Some(|s.images|))
  {
    DraftTwice(s, id, Formatted, Looking(true), image, image);
  }

  /** After linking, whichever image is published decides, and the call's own name goes in
      both cases. */
  lemma TheSecondLookDecides(s: System, id: CallerId)
    requires Invariant(s) && id < |s.callers| && s.callers[id].stage == Looking(true)
    ensures s.published.Some? && s.published.value < |s.images|
    ensures var result := LookResult(s, s.callers[id].quota); var t := Next(Next(s, Open(id)), Stat(id));
      && (if result.Ok? then Next(t, ReadMagic(id)) else t) == WithStage(s, id, Cleaning(result))
      && Next(WithStage(s, id, Cleaning(result)), Clean(id)) == WithStage(s, id, Done(result)).(temporaries := s.temporaries - {id})
  {
    assert CallerInOrder(s, id);
    var result := LookResult(s, s.callers[id].quota);
    TheLook(s, id, true);
    StageTwice(s, id, Cleaning(result), Done(result));
  }
}
