/** One log directory of s6-log: rotation, recovery, trimming and writing.  Any
    system call may fail, and the process may be killed before any of them. */
module S6Log {
  import opened LogStore
  import opened Trimming
  import opened Splitting


  datatype Outcome = Ok | Fail | Killed

  /** What a function returns, if the process is not killed first. */
  datatype Ret = Returned(value: int) | Died

  datatype TrimResult = Removed(count: nat) | Unreadable | Overrun | TrimDied

  datatype Rotstate =
    | Writable
    | Start
    | RenameCurrent
    | NewCurrent
    | ChmodPrevious
    | FinishPrevious
    | RunProcessor
    | WaitProcessor
    | SyncProcessed
    | SyncNewState
    | UnlinkPrevious
    | RenameState
    | FinishProcessed
    | EndFchmod
    | End
  {
    /** A rotation has begun, but the new "current" is not open yet. */
    predicate Unopened() {
      Start? || RenameCurrent? || NewCurrent?
    }

    /** States that only a directory with a processor reaches. */
    predicate Processing() {
      || RunProcessor? || WaitProcessor? || SyncProcessed? || SyncNewState?
      || UnlinkPrevious? || RenameState? || FinishProcessed?
    }
  }

  /** The processor child: it opens its files before it runs. */
  datatype Child = NoChild | Forked | Running

  function Names(es: seq<Entry>): set<Name> {
    set e | e in es :: e.name
  }

  /** The generations in birth order hold exactly the accepted bytes, in order. */
  function Contents(fs: Store, order: seq<Ino>): seq<Byte>
    requires forall g <- order :: g in fs.files
  {
    if order == [] then [] else Contents(fs, order[..|order| - 1]) + fs.files[order[|order| - 1]].data
  }

  /** The generations in birth order, those that an alarm or a restart has cut off, and the
      file sizes and tolerances of the processes there have been. */
  datatype History = History(gens: seq<Ino>, cut: set<Ino>, shapes: set<(nat, nat)>)
  {
    function Plus(i: Ino): History {
      this.(gens := gens + [i])
    }

    /** No more than n generations have begun since, and nothing else has changed. */
    predicate Grows(after: History, n: nat) {
      gens <= after.gens && |after.gens| <= |gens| + n && after.cut == cut && after.shapes == shapes
    }

    /** Besides, a process may have started, and some of these generations may have been cut off. */
    predicate Follows(after: History, n: nat, started: set<(nat, nat)>, ends: set<Ino>) {
      && gens <= after.gens && |after.gens| <= |gens| + n
      && after.shapes == shapes + started && cut <= after.cut <= cut + ends
    }
  }

  lemma NoGrowth(order: History)
    ensures forall n: nat :: order.Grows(order, n)
    ensures forall n: nat, ends :: order.Follows(order, n, {}, ends)
  {
  }

  lemma FollowsOn(a: History, b: History, ends: set<Ino>)
    requires a.Follows(b, 0, {}, ends)
    ensures b.shapes == a.shapes && a.Follows(b, 1, {}, ends)
    ensures forall c :: b.Grows(c, 1) ==> a.Follows(c, 1, {}, ends)
  {
  }

  /** A file that is full, or that ends in a newline near enough to its limit. */
  predicate Filled(data: seq<Byte>, size: nat, tolerance: nat) {
    |data| >= size || (data != [] && data[|data| - 1] == NEWLINE && |data| + tolerance >= size)
  }

  /** The generation had a reason to end. */
  ghost predicate Closed(fs: Store, order: History, g: Ino) {
    g in order.cut ||
        (g in fs.files && exists shape :: shape in order.shapes && Filled(fs.files[g].data, shape.0, shape.1))
  }

  /** All generations but the last one had. */
  ghost predicate AllClosed(fs: Store, order: History) {
    forall k | 0 <= k < |order.gens| - 1 :: Closed(fs, order, order.gens[k])
  }

  lemma ShapeCloses(fs: Store, order: History, g: Ino, size: nat, tolerance: nat)
    requires g in fs.files && (size, tolerance) in order.shapes && Filled(fs.files[g].data, size, tolerance)
    ensures Closed(fs, order, g)
  {
    var shape := (size, tolerance);
    assert shape in order.shapes && Filled(fs.files[g].data, shape.0, shape.1);
  }

  ghost predicate Recorded(fs: Store, order: History, accepted: seq<Byte>) {
    && (forall j, k | 0 <= j < k < |order.gens| :: order.gens[j] != order.gens[k])
    && (forall g :: g in order.gens <==> fs.IsGeneration(g))
    && Contents(fs, order.gens) == accepted && AllClosed(fs, order)
  }

  lemma {:induction false} ContentsFrame(a: Store, b: Store, order: seq<Ino>)
    requires forall g <- order :: g in a.files && g in b.files && a.files[g].data == b.files[g].data
    ensures Contents(a, order) == Contents(b, order)
  {
    if order != [] {
      ContentsFrame(a, b, order[..|order| - 1]);
    }
  }

  lemma StillClosed(fs: Store, before: History, after: History, accepted: seq<Byte>)
    requires Recorded(fs, before, accepted) && Newest(fs, before)
    requires after.gens == before.gens && before.cut <= after.cut && before.shapes <= after.shapes
    ensures Recorded(fs, after, accepted) && Newest(fs, after)
  {
    hide Filled;
    assert forall g :: Closed(fs, before, g) ==> Closed(fs, after, g);
  }

  /** Steps that leave every generation as it was. */
  ghost predicate SameLogs(a: Store, b: Store) {
    && (forall i <- a.files | a.files[i].kind.Log? ::
        i in b.files && b.files[i].kind.Log? && b.files[i].data == a.files[i].data)
    && (forall i <- b.files | b.files[i].kind.Log? :: i in a.files && a.files[i].kind.Log?)
  }

  lemma RecordedFrame(a: Store, b: Store, order: History, accepted: seq<Byte>)
    requires Recorded(a, order, accepted) && SameLogs(a, b)
    ensures Recorded(b, order, accepted)
    ensures forall g <- order.gens :: Closed(a, order, g) ==> Closed(b, order, g)
  {
    assert forall g <- order.gens :: a.IsGeneration(g);
    forall g ensures g in order.gens <==> b.IsGeneration(g) {
      assert g in order.gens <==> a.IsGeneration(g);
    }
    hide Filled;
    ContentsFrame(a, b, order.gens);
  }

  lemma RecordedCreate(before: Store, after: Store, i: Ino, order: History, accepted: seq<Byte>)
    requires Recorded(before, order, accepted) && i !in before.files && after == before.Create(Current, i, Log)
    requires order.gens != [] ==> Closed(before, order, order.gens[|order.gens| - 1])
    ensures Recorded(after, order.Plus(i), accepted)
  {
    hide Filled, Closed, AllClosed;
    assert forall g <- order.gens :: before.IsGeneration(g);
    assert (order.gens + [i])[..|order.gens|] == order.gens;
    ContentsFrame(before, after, order.gens);
    ClosedCreate(before, after, i, order);
  }

  lemma ClosedCreate(before: Store, after: Store, i: Ino, order: History)
    requires AllClosed(before, order) && i !in before.files && after == before.Create(Current, i, Log)
    requires order.gens != [] ==> Closed(before, order, order.gens[|order.gens| - 1])
    ensures AllClosed(after, order.Plus(i))
  {
    hide Filled;
    forall k | 0 <= k < |order.gens| ensures Closed(after, order.Plus(i), order.gens[k]) {
      assert Closed(before, order, order.gens[k]);
    }
  }

  /** Nothing that was logged changes. */
  ghost predicate LogsKept(a: Store, b: Store) {
    forall i <- a.files | a.files[i].kind.Log? ::
        i in b.files && b.files[i].kind.Log? && b.files[i].data == a.files[i].data
  }

  // ----- what holds between the steps of a rotation -----

  /** "current" is the open file, is being written, and is nowhere else. */
  ghost predicate Writing(fs: Store, fd: Ino) {
    fs.Links(Current, fd) && !fs.Executable(Current) && !fs.Archived(fd)
  }

  ghost predicate Fresh(fs: Store, stamp: nat) {
    forall x :: Archive(stamp, x) !in fs.dir
  }

  /** "previous" is full and not yet archived. */
  ghost predicate Full(fs: Store) {
    Previous in fs.dir && !fs.Archived(fs.dir[Previous])
  }

  ghost predicate Unprocessed(fs: Store) {
    !fs.Executable(Processed)
  }

  /** "processed" is whole, trusted, and not yet archived. */
  ghost predicate Ready(fs: Store) {
    fs.Executable(Processed) && !fs.Archived(fs.Origin(fs.dir[Processed]))
  }

  ghost predicate InPhase(rstate: Rotstate, fs: Store, fd: Ino, stamp: nat, child: Child) {
    match rstate
    case Writable => Writing(fs, fd) && Previous !in fs.dir && Unprocessed(fs)
    case Start => Writing(fs, fd) && Previous !in fs.dir && Unprocessed(fs)
    case RenameCurrent => Writing(fs, fd) && Previous !in fs.dir && Unprocessed(fs) && Fresh(fs, stamp)
    case NewCurrent =>
      && Full(fs) && fs.dir[Previous] == fd && Unprocessed(fs) && Fresh(fs, stamp)
      && (Current in fs.dir ==>
          Writing(fs, fs.dir[Current]) && fs.dir[Current] in fs.files && fs.files[fs.dir[Current]].data == [])
    case ChmodPrevious => Writing(fs, fd) && Full(fs) && Unprocessed(fs) && Fresh(fs, stamp)
    case FinishPrevious => Writing(fs, fd) && Unprocessed(fs) && ((Full(fs) && Fresh(fs, stamp)) || Previous !in fs.dir)
    case RunProcessor => Writing(fs, fd) && Full(fs) && Unprocessed(fs)
    case WaitProcessor =>
      && Writing(fs, fd) && Full(fs) && Unprocessed(fs)
      && (child.Running? ==>
          Processed in fs.dir && fs.dir[Processed] in fs.files &&
          fs.files[fs.dir[Processed]].kind == Output(fs.dir[Previous], false))
    case SyncProcessed =>
      Writing(fs, fd) && Full(fs) && Processed in fs.dir && fs.dir[Processed] in fs.files &&
          fs.files[fs.dir[Processed]].kind == Output(fs.dir[Previous], true)
    case SyncNewState => Writing(fs, fd) && Ready(fs) && Fresh(fs, stamp)
    case UnlinkPrevious => Writing(fs, fd) && Ready(fs) && Fresh(fs, stamp)
    case RenameState => Writing(fs, fd) && Ready(fs) && Fresh(fs, stamp) && Previous !in fs.dir
    case FinishProcessed => Writing(fs, fd) && Previous !in fs.dir &&
        ((Ready(fs) && Fresh(fs, stamp)) || Processed !in fs.dir)
    case EndFchmod => Writing(fs, fd) && Previous !in fs.dir && Unprocessed(fs)
    case End => Previous !in fs.dir && Unprocessed(fs)
  }

  /** What holds of the directory whenever the process may be killed. */
  ghost predicate Good(fs: Store, trimmed: set<Ino>, clock: nat, order: History, accepted: seq<Byte>) {
    fs.Consistent(trimmed) && fs.StampsBelow(clock) && Recorded(fs, order, accepted) && Newest(fs, order)
  }

  /** Only the generation born last can be "current"; when it is not, it is closed. */
  ghost predicate Newest(fs: Store, order: History) {
    if Current in fs.dir then order.gens != [] && fs.dir[Current] == order.gens[|order.gens| - 1]
    else order.gens != [] ==> Closed(fs, order, order.gens[|order.gens| - 1])
  }

  lemma StepRename(
      fs: Store, trimmed: set<Ino>, clock: nat, order: History, accepted: seq<Byte>, fd: Ino, stamp: nat,
      child: Child)
    requires Good(fs, trimmed, clock, order, accepted) && InPhase(RenameCurrent, fs, fd, stamp, child)
    requires Closed(fs, order, fd)
    ensures Good(fs.Rename(Current, Previous), trimmed, clock, order, accepted)
    ensures InPhase(NewCurrent, fs.Rename(Current, Previous), fd, stamp, child)
  {
    LogStore.RenameCurrent(fs, trimmed);
    RecordedFrame(fs, fs.Rename(Current, Previous), order, accepted);
  }

  lemma StepCreate(fs: Store, trimmed: set<Ino>, clock: nat, order: History, accepted: seq<Byte>, i: Ino)
    requires Good(fs, trimmed, clock, order, accepted) && Current !in fs.dir && i !in fs.files
    ensures Good(fs.Create(Current, i, Log), trimmed, clock, order.Plus(i), accepted)
    ensures forall g :: fs.Create(Current, i, Log).Archived(g) <==> fs.Archived(g)
    ensures !fs.Archived(i)
  {
    CreateCurrent(fs, i, trimmed);
    RecordedCreate(fs, fs.Create(Current, i, Log), i, order, accepted);
  }

  lemma StepOpened(
      fs: Store, trimmed: set<Ino>, clock: nat, order: History, accepted: seq<Byte>, fd: Ino, i: Ino, stamp: nat,
      child: Child)
    requires Good(fs, trimmed, clock, order, accepted) && Current !in fs.dir && i !in fs.files
    requires InPhase(NewCurrent, fs, fd, stamp, child)
    ensures InPhase(NewCurrent, fs.Create(Current, i, Log), fd, stamp, child)
  {
    StepCreate(fs, trimmed, clock, order, accepted, i);
  }

  lemma StepSwitch(
      fs: Store, trimmed: set<Ino>, clock: nat, order: History, accepted: seq<Byte>, fd: Ino, i: Ino, stamp: nat,
      child: Child)
    requires Good(fs, trimmed, clock, order, accepted) && InPhase(NewCurrent, fs, fd, stamp, child) &&
            fs.Links(Current, i)
    ensures Good(fs.Chmod(i, false), trimmed, clock, order, accepted)
    ensures InPhase(ChmodPrevious, fs.Chmod(i, false), i, stamp, child)
    ensures i != fd && fs.Chmod(i, false).files[i].data == []
  {
    ChmodCurrent(fs, false, trimmed);
    RecordedFrame(fs, fs.Chmod(i, false), order, accepted);
  }

  lemma MarkAside(fs: Store, trimmed: set<Ino>)
    requires fs.Consistent(trimmed) && Previous in fs.dir
    ensures Alike(fs, fs.Chmod(fs.dir[Previous], true)) && SameLogs(fs, fs.Chmod(fs.dir[Previous], true))
  {
    var after := fs.Chmod(fs.dir[Previous], true);
    assert forall i <- fs.files :: after.files[i].kind == fs.files[i].kind;
    assert forall i <- fs.files | i != fs.dir[Previous] :: after.files[i] == fs.files[i];
  }

  lemma StepMark(
      fs: Store, trimmed: set<Ino>, clock: nat, order: History, accepted: seq<Byte>, fd: Ino, stamp: nat,
      child: Child)
    requires Good(fs, trimmed, clock, order, accepted) && InPhase(ChmodPrevious, fs, fd, stamp, child)
    ensures Good(fs.Chmod(fs.dir[Previous], true), trimmed, clock, order, accepted)
    ensures InPhase(FinishPrevious, fs.Chmod(fs.dir[Previous], true), fd, stamp, child)
    ensures InPhase(RunProcessor, fs.Chmod(fs.dir[Previous], true), fd, stamp, child)
  {
    var after := fs.Chmod(fs.dir[Previous], true);
    MarkAside(fs, trimmed);
    AlikeConsistent(fs, after, trimmed);
    RecordedFrame(fs, after, order, accepted);
  }

  /** finish gave "previous" its archive name, so the rotation is over. */
  lemma StepArchived(fs: Store, after: Store, trimmed: set<Ino>, archive: Name, fd: Ino, stamp: nat, child: Child)
    requires after.Consistent(trimmed) && archive.Archive? && FinishEffect(fs, after, Previous, archive)
    requires InPhase(FinishPrevious, fs, fd, stamp, child) && fs.Sound() && fs.Overlaps()
    ensures InPhase(Writable, after, fd, stamp, child)
  {
    forall n: Name | n.Archive? && n in after.dir ensures !after.Archives(n, fd) {
      assert (n in fs.dir && after.dir[n] == fs.dir[n]) || (Previous in fs.dir && after.dir[n] == fs.dir[Previous]);
      assert n in fs.dir && fs.Origin(fs.dir[n]) == fd ==> fs.Archives(n, fd);
    }
  }

  /** The same for "processed". */
  lemma StepProcessed(fs: Store, after: Store, trimmed: set<Ino>, archive: Name, fd: Ino, stamp: nat, child: Child)
    requires after.Consistent(trimmed) && archive.Archive? && FinishEffect(fs, after, Processed, archive)
    requires InPhase(FinishProcessed, fs, fd, stamp, child) && fs.Sound() && fs.Overlaps()
    ensures InPhase(Writable, after, fd, stamp, child)
  {
    forall n: Name | n.Archive? && n in after.dir ensures !after.Archives(n, fd) {
      assert (n in fs.dir && after.dir[n] == fs.dir[n]) || (Processed in fs.dir && after.dir[n] == fs.dir[Processed]);
      assert n in fs.dir && fs.Origin(fs.dir[n]) == fd ==> fs.Archives(n, fd);
    }
  }

  /** finish's unlink of a name whose file has an archive. */
  lemma StepUnlink(fs: Store, trimmed: set<Ino>, clock: nat, order: History, accepted: seq<Byte>, name: Name)
    requires Good(fs, trimmed, clock, order, accepted)
    requires name in {Current, Previous, Processed} && name in fs.dir && fs.LinkCount(name) != 1
    requires name == Processed ==> fs.Executable(Processed)
    requires name == Current ==> fs.dir[Current] in order.cut
    ensures Good(fs.Unlink(name), trimmed, clock, order, accepted) && fs.Unlink(name).Single()
  {
    UnlinkArchived(fs, name, trimmed);
    RecordedFrame(fs, fs.Unlink(name), order, accepted);
    hide Store.Consistent, Store.Single, Recorded;
  }

  lemma StepTrust(
      fs: Store, trimmed: set<Ino>, clock: nat, order: History, accepted: seq<Byte>, fd: Ino, now: nat, child: Child)
    requires Good(fs, trimmed, clock, order, accepted) && now > clock
    requires InPhase(SyncProcessed, fs, fd, now, child)
    ensures Good(fs.Chmod(fs.dir[Processed], true), trimmed, now, order, accepted)
    ensures InPhase(SyncNewState, fs.Chmod(fs.dir[Processed], true), fd, now, child)
  {
    var after := fs.Chmod(fs.dir[Processed], true);
    TrustProcessed(fs, trimmed);
    RecordedFrame(fs, after, order, accepted);
  }

  lemma StepUnlinkPrevious(
      fs: Store, trimmed: set<Ino>, clock: nat, order: History, accepted: seq<Byte>, fd: Ino, stamp: nat,
      child: Child)
    requires Good(fs, trimmed, clock, order, accepted) && InPhase(UnlinkPrevious, fs, fd, stamp, child)
    ensures Good(fs.Unlink(Previous), trimmed, clock, order, accepted)
    ensures InPhase(RenameState, fs.Unlink(Previous), fd, stamp, child)
  {
    LogStore.UnlinkPrevious(fs, trimmed);
    RecordedFrame(fs, fs.Unlink(Previous), order, accepted);
  }

  /** Steps that touch only processor state, or a "processed" that is not trusted yet. */
  ghost predicate Aside(a: Store, b: Store) {
    Alike(a, b) && SameLogs(a, b)
  }

  ghost predicate SameProcessed(a: Store, b: Store) {
    Processed in a.dir && a.dir[Processed] in a.files ==>
      b.Links(Processed, a.dir[Processed]) && b.dir[Processed] in b.files &&
          b.files[b.dir[Processed]].kind == a.files[a.dir[Processed]].kind
  }

  lemma StepAside(
      fs: Store, after: Store, trimmed: set<Ino>, clock: nat, order: History, accepted: seq<Byte>, rstate: Rotstate,
      fd: Ino, stamp: nat, child: Child)
    requires Good(fs, trimmed, clock, order, accepted) && InPhase(rstate, fs, fd, stamp, child) && Aside(fs, after)
    requires (rstate == WaitProcessor && child.Running?) || rstate == SyncProcessed ==> SameProcessed(fs, after)
    ensures Good(after, trimmed, clock, order, accepted)
    ensures InPhase(rstate, after, fd, stamp, child) || (rstate == FinishProcessed && Processed !in fs.dir)
  {
    AlikeConsistent(fs, after, trimmed);
    RecordedFrame(fs, after, order, accepted);
    PhaseAside(fs, after, trimmed, rstate, fd, stamp, child);
    hide InPhase, SameProcessed;
    assert forall n: Name | n.Archive? :: n in after.dir <==> n in fs.dir;
  }

  lemma PhaseAside(fs: Store, after: Store, trimmed: set<Ino>, rstate: Rotstate, fd: Ino, stamp: nat, child: Child)
    requires fs.Consistent(trimmed) && after.Consistent(trimmed) && forall g :: after.Archived(g) <==> fs.Archived(g)
    requires InPhase(rstate, fs, fd, stamp, child) && Aside(fs, after)
    requires (rstate == WaitProcessor && child.Running?) || rstate == SyncProcessed ==> SameProcessed(fs, after)
    ensures InPhase(rstate, after, fd, stamp, child) || (rstate == FinishProcessed && Processed !in fs.dir)
  {
    hide Aside, Store.Consistent, Writing, Full, Unprocessed, Ready, Fresh, Store.Archived;
    AsideParts(fs, after, trimmed);
    if rstate.NewCurrent? {
      AsideCurrent(fs, after, trimmed);
    }
  }

  lemma AsideParts(fs: Store, after: Store, trimmed: set<Ino>)
    requires fs.Consistent(trimmed) && after.Consistent(trimmed) && Aside(fs, after)
    requires forall g :: after.Archived(g) <==> fs.Archived(g)
    ensures forall fd :: Writing(fs, fd) ==> Writing(after, fd)
    ensures Full(fs) ==> Full(after) && Previous in fs.dir
    ensures Previous in after.dir <==> Previous in fs.dir
    ensures Previous in fs.dir ==> after.dir[Previous] == fs.dir[Previous]
    ensures Unprocessed(fs) ==> Unprocessed(after)
    ensures Ready(fs) ==> Ready(after) && Processed in fs.dir
    ensures forall stamp :: Fresh(fs, stamp) ==> Fresh(after, stamp)
  {
    hide Store.Sound, Store.Unique, Store.Overlaps, Store.Archived;
    assert forall n: Name | n.Archive? :: n in after.dir <==> n in fs.dir;
  }

  lemma AsideCurrent(fs: Store, after: Store, trimmed: set<Ino>)
    requires fs.Consistent(trimmed) && after.Consistent(trimmed) && Aside(fs, after)
    ensures Current in after.dir ==>
              && Current in fs.dir && after.dir[Current] == fs.dir[Current]
              && fs.dir[Current] in fs.files && fs.dir[Current] in after.files
              && after.files[fs.dir[Current]].data == fs.files[fs.dir[Current]].data
  {
    hide Store.Unique, Store.Overlaps, Store.Archived;
  }

  /** No name shares an untrusted "processed". */
  ghost predicate Separate(fs: Store) {
    && fs.Linked()
    && (Processed in fs.dir && !fs.Executable(Processed) ==>
        forall n | n in fs.dir && n != Processed :: fs.dir[n] != fs.dir[Processed])
  }

  lemma SeparateFromConsistent(fs: Store, trimmed: set<Ino>)
    requires fs.Consistent(trimmed)
    ensures Separate(fs) && fs.Sound()
  {
  }

  lemma StateRename(fs: Store)
    requires Separate(fs) && NewState in fs.dir && fs.Rename(NewState, State).Sound()
    ensures Aside(fs, fs.Rename(NewState, State))
  {
    hide Store.Sound;
  }

  lemma StateUnlink(fs: Store, n: Name)
    requires Separate(fs) && n in {State, NewState} && fs.Unlink(n).Sound()
    ensures Aside(fs, fs.Unlink(n))
  {
    hide Store.Sound;
  }

  lemma StateCreate(fs: Store, n: Name, i: Ino)
    requires Separate(fs) && n in {State, NewState} && n !in fs.dir && i !in fs.files &&
            fs.Create(n, i, Scratch).Sound()
    ensures Aside(fs, fs.Create(n, i, Scratch))
  {
    hide Store.Sound;
    CreateAlike(fs, n, i);
    hide Alike;
  }

  lemma CreateAlike(fs: Store, n: Name, i: Ino)
    requires Separate(fs) && n in {State, NewState} && n !in fs.dir && i !in fs.files &&
            fs.Create(n, i, Scratch).Sound()
    ensures Alike(fs, fs.Create(n, i, Scratch))
  {
    hide Store.Sound;
  }

  lemma SoundSteps(fs: Store, n: Name)
    requires fs.Sound() && n in {State, NewState}
    ensures NewState in fs.dir ==> fs.Rename(NewState, State).Sound()
    ensures fs.Unlink(n).Sound()
    ensures forall i | i !in fs.files :: fs.Create(n, i, Scratch).Sound()
  {
    forall i | i !in fs.files ensures fs.Create(n, i, Scratch).Sound() {
      var after := fs.Create(n, i, Scratch);
      forall j <- after.files | after.files[j].kind.Output? ensures after.IsGeneration(after.files[j].kind.source) {
        assert fs.IsGeneration(fs.files[j].kind.source);
      }
    }
  }

  lemma StepMoveState(
      fs: Store, trimmed: set<Ino>, clock: nat, order: History, accepted: seq<Byte>, fd: Ino, stamp: nat,
      child: Child)
    requires Good(fs, trimmed, clock, order, accepted) && InPhase(RenameState, fs, fd, stamp, child) &&
            NewState in fs.dir
    ensures Good(fs.Rename(NewState, State), trimmed, clock, order, accepted)
    ensures InPhase(FinishProcessed, fs.Rename(NewState, State), fd, stamp, child)
  {
    SeparateFromConsistent(fs, trimmed);
    SoundSteps(fs, NewState);
    StateRename(fs);
    hide Aside, Separate, Store.Consistent, Store.Sound;
    StepAside(fs, fs.Rename(NewState, State), trimmed, clock, order, accepted, RenameState, fd, stamp, child);
  }

  lemma StepNewState(
      fs: Store, trimmed: set<Ino>, clock: nat, order: History, accepted: seq<Byte>, rstate: Rotstate, fd: Ino,
      i: Ino, stamp: nat, child: Child)
    requires Good(fs, trimmed, clock, order, accepted) && InPhase(rstate, fs, fd, stamp, child)
    requires NewState !in fs.dir && i !in fs.files && rstate != FinishProcessed
    ensures Good(fs.Create(NewState, i, Scratch), trimmed, clock, order, accepted)
    ensures InPhase(rstate, fs.Create(NewState, i, Scratch), fd, stamp, child)
  {
    SeparateFromConsistent(fs, trimmed);
    SoundSteps(fs, NewState);
    StateCreate(fs, NewState, i);
    assert SameProcessed(fs, fs.Create(NewState, i, Scratch));
    hide Aside, Separate, Store.Consistent, Store.Sound;
    StepAside(fs, fs.Create(NewState, i, Scratch), trimmed, clock, order, accepted, rstate, fd, stamp, child);
  }

  lemma EmptyStateAside(fs: Store, n: Name)
    requires Separate(fs) && n in {State, NewState} && n in fs.dir && fs.Sound()
    ensures Aside(fs, fs.Replace(fs.dir[n], Scratch, []))
  {
    var after := fs.Replace(fs.dir[n], Scratch, []);
    assert forall j <- fs.files :: after.files[j].kind == fs.files[j].kind && after.files[j].exec == fs.files[j].exec;
    assert forall j <- fs.files | j != fs.dir[n] :: after.files[j] == fs.files[j];
  }

  lemma StepEmptyState(
      fs: Store, trimmed: set<Ino>, clock: nat, order: History, accepted: seq<Byte>, rstate: Rotstate, fd: Ino,
      stamp: nat, child: Child)
    requires Good(fs, trimmed, clock, order, accepted) && InPhase(rstate, fs, fd, stamp, child)
    requires NewState in fs.dir && rstate != FinishProcessed
    ensures Good(fs.Replace(fs.dir[NewState], Scratch, []), trimmed, clock, order, accepted)
    ensures InPhase(rstate, fs.Replace(fs.dir[NewState], Scratch, []), fd, stamp, child)
    ensures LogsKept(fs, fs.Replace(fs.dir[NewState], Scratch, []))
  {
    SeparateFromConsistent(fs, trimmed);
    EmptyStateAside(fs, NewState);
    assert SameProcessed(fs, fs.Replace(fs.dir[NewState], Scratch, []));
    hide Aside, Separate, Store.Consistent, Store.Sound;
    StepAside(fs, fs.Replace(fs.dir[NewState], Scratch, []), trimmed, clock, order, accepted, rstate, fd, stamp, child);
  }

  /** A new reading of the clock is a fresh timestamp. */
  lemma StepClock(fs: Store, trimmed: set<Ino>, clock: nat, order: History, accepted: seq<Byte>, now: nat)
    requires Good(fs, trimmed, clock, order, accepted) && now > clock
    ensures Good(fs, trimmed, now, order, accepted) && Fresh(fs, now)
  {
  }

  /** The processor child opens "processed" for its output. */
  lemma TruncAside(fs: Store, trimmed: set<Ino>)
    requires fs.Consistent(trimmed) && Previous in fs.dir && Processed in fs.dir && !fs.Executable(Processed)
    ensures Aside(fs, fs.Replace(fs.dir[Processed], Output(fs.dir[Previous], false), []))
  {
    var after := fs.Replace(fs.dir[Processed], Output(fs.dir[Previous], false), []);
    assert forall j <- fs.files | j != fs.dir[Processed] :: after.files[j] == fs.files[j];
  }

  lemma OutputSound(fs: Store, i: Ino)
    requires fs.Sound() && Previous in fs.dir && Processed !in fs.dir && i !in fs.files
    ensures fs.Create(Processed, i, Output(fs.dir[Previous], false)).Sound()
  {
    var after := fs.Create(Processed, i, Output(fs.dir[Previous], false));
    forall j <- after.files | after.files[j].kind.Output? ensures after.IsGeneration(after.files[j].kind.source) {
      if j != i {
        assert fs.IsGeneration(fs.files[j].kind.source);
      }
    }
  }

  lemma OutputAlike(fs: Store, i: Ino, k: Kind)
    requires Separate(fs) && Processed !in fs.dir && i !in fs.files && k.Output? && fs.Create(Processed, i, k).Sound()
    ensures Alike(fs, fs.Create(Processed, i, k)) && SameLogs(fs, fs.Create(Processed, i, k))
  {
    hide Store.Sound;
  }

  lemma StepTrunc(
      fs: Store, after: Store, trimmed: set<Ino>, clock: nat, order: History, accepted: seq<Byte>, fd: Ino, i: Ino,
      stamp: nat)
    requires Good(fs, trimmed, clock, order, accepted) && InPhase(WaitProcessor, fs, fd, stamp, Forked)
    requires Processed in fs.dir ==> after == fs.Replace(fs.dir[Processed], Output(fs.dir[Previous], false), [])
    requires Processed !in fs.dir ==>
            i !in fs.files && after == fs.Create(Processed, i, Output(fs.dir[Previous], false))
    ensures Good(after, trimmed, clock, order, accepted) && InPhase(WaitProcessor, after, fd, stamp, Running)
    ensures LogsKept(fs, after)
  {
    SeparateFromConsistent(fs, trimmed);
    if Processed in fs.dir {
      TruncAside(fs, trimmed);
    } else {
      OutputSound(fs, i);
      OutputAlike(fs, i, Output(fs.dir[Previous], false));
    }
    hide Alike, Store.Consistent, Store.Sound;
    StepAside(fs, after, trimmed, clock, order, accepted, WaitProcessor, fd, stamp, Forked);
  }

  /** The processor writes; or its success makes what it wrote whole. */
  lemma OutputAside(fs: Store, trimmed: set<Ino>, k: Kind, s: seq<Byte>)
    requires fs.Consistent(trimmed) && Previous in fs.dir && Processed in fs.dir && !fs.Executable(Processed)
    requires fs.files[fs.dir[Processed]].kind == Output(fs.dir[Previous], false)
    requires k in {Output(fs.dir[Previous], false), Output(fs.dir[Previous], true)}
    ensures Aside(fs, fs.Replace(fs.dir[Processed], k, s))
  {
    var after := fs.Replace(fs.dir[Processed], k, s);
    assert forall j <- fs.files | j != fs.dir[Processed] :: after.files[j] == fs.files[j];
  }

  lemma StepOutput(
      fs: Store, after: Store, trimmed: set<Ino>, clock: nat, order: History, accepted: seq<Byte>, fd: Ino,
      stamp: nat, s: seq<Byte>)
    requires Good(fs, trimmed, clock, order, accepted) && InPhase(WaitProcessor, fs, fd, stamp, Running)
    requires after == fs.Replace(fs.dir[Processed], Output(fs.dir[Previous], false), s)
    ensures Good(after, trimmed, clock, order, accepted) && InPhase(WaitProcessor, after, fd, stamp, Running)
    ensures LogsKept(fs, after)
  {
    OutputAside(fs, trimmed, Output(fs.dir[Previous], false), s);
    StepAside(fs, after, trimmed, clock, order, accepted, WaitProcessor, fd, stamp, Running);
  }

  lemma StepWhole(
      fs: Store, after: Store, trimmed: set<Ino>, clock: nat, order: History, accepted: seq<Byte>, fd: Ino,
      stamp: nat)
    requires Good(fs, trimmed, clock, order, accepted) && InPhase(WaitProcessor, fs, fd, stamp, Running)
    requires after == fs.Replace(fs.dir[Processed], Output(fs.dir[Previous], true), fs.files[fs.dir[Processed]].data)
    ensures Good(after, trimmed, clock, order, accepted) && InPhase(SyncProcessed, after, fd, stamp, NoChild)
    ensures LogsKept(fs, after)
  {
    OutputAside(fs, trimmed, Output(fs.dir[Previous], true), fs.files[fs.dir[Processed]].data);
    StepAside(fs, after, trimmed, clock, order, accepted, RunProcessor, fd, stamp, NoChild);
  }

  /** Bytes written to the open file extend the newest generation. */
  lemma StepWrite(
      fs: Store, trimmed: set<Ino>, clock: nat, order: History, accepted: seq<Byte>, fd: Ino, stamp: nat,
      child: Child, s: seq<Byte>)
    requires Good(fs, trimmed, clock, order, accepted) && InPhase(Writable, fs, fd, stamp, child)
    ensures Good(fs.Append(fd, s), trimmed, clock, order, accepted + s) &&
            InPhase(Writable, fs.Append(fd, s), fd, stamp, child)
  {
    var after := fs.Append(fd, s);
    SeparateFromConsistent(fs, trimmed);
    AppendAlike(fs, fd, s);
    AlikeConsistent(fs, after, trimmed);
    RecordedWrite(fs, order, accepted, fd, s);
    hide Store.Consistent, Recorded, Alike, Store.Sound;
  }

  lemma RecordedWrite(fs: Store, order: History, accepted: seq<Byte>, fd: Ino, s: seq<Byte>)
    requires Recorded(fs, order, accepted) && order.gens != [] && fd == order.gens[|order.gens| - 1] && fd in fs.files
    ensures Recorded(fs.Append(fd, s), order, accepted + s)
  {
    hide Filled;
    var after, gens := fs.Append(fd, s), order.gens;
    var older := gens[..|gens| - 1];
    forall g <- older ensures g != fd && g in gens {
      var j :| 0 <= j < |older| && older[j] == g;
      assert gens[j] != gens[|gens| - 1];
    }
    assert forall g <- gens :: fs.IsGeneration(g);
    forall g ensures g in gens <==> after.IsGeneration(g) {
      assert after.IsGeneration(g) <==> fs.IsGeneration(g);
    }
    ContentsFrame(fs, after, older);
    assert Contents(after, gens) == Contents(after, older) + after.files[fd].data;
    forall k | 0 <= k < |gens| - 1 ensures Closed(after, order, gens[k]) {
      assert Closed(fs, order, gens[k]) && gens[k] == older[k];
    }
  }

  lemma AppendAlike(fs: Store, fd: Ino, s: seq<Byte>)
    requires Separate(fs) && fs.Sound() && fs.IsGeneration(fd)
    ensures Alike(fs, fs.Append(fd, s))
  {
    var after := fs.Append(fd, s);
    assert forall j <- fs.files :: after.files[j].kind == fs.files[j].kind && after.files[j].exec == fs.files[j].exec;
  }

  // ----- recovery steps -----

  /** A name that recovery does not look at is gone, or still there. */
  ghost predicate Discarded(before: Store, after: Store, n: Name) {
    after == before || after == before.Unlink(n)
  }

  lemma StepDiscard(fs: Store, trimmed: set<Ino>, clock: nat, order: History, accepted: seq<Byte>, n: Name)
    requires Good(fs, trimmed, clock, order, accepted) && n in {State, NewState, Processed}
    requires n == Processed ==> Unprocessed(fs)
    ensures Good(fs.Unlink(n), trimmed, clock, order, accepted)
  {
    var after := fs.Unlink(n);
    if n == Processed {
      UnlinkUntrusted(fs, trimmed);
    } else {
      SeparateFromConsistent(fs, trimmed);
      SoundSteps(fs, n);
      StateUnlink(fs, n);
      AlikeConsistent(fs, after, trimmed);
    }
    RecordedFrame(fs, after, order, accepted);
  }

  /** Recovery's unlink of a "previous" whose processed form it trusts. */
  lemma StepForget(fs: Store, trimmed: set<Ino>, clock: nat, order: History, accepted: seq<Byte>)
    requires Good(fs, trimmed, clock, order, accepted) && fs.Executable(Processed)
    ensures Good(fs.Unlink(Previous), trimmed, clock, order, accepted)
  {
    LogStore.UnlinkPrevious(fs, trimmed);
    RecordedFrame(fs, fs.Unlink(Previous), order, accepted);
  }

  /** Recovery's new, empty "state". */
  lemma StepFreshState(
      fs: Store, after: Store, trimmed: set<Ino>, clock: nat, order: History, accepted: seq<Byte>, i: Ino)
    requires Good(fs, trimmed, clock, order, accepted)
    requires State in fs.dir ==> after == fs.Replace(fs.dir[State], Scratch, [])
    requires State !in fs.dir ==> i !in fs.files && after == fs.Create(State, i, Scratch)
    ensures Good(after, trimmed, clock, order, accepted) && LogsKept(fs, after)
    ensures forall g :: after.Archived(g) <==> fs.Archived(g)
    ensures (after.Executable(Current) <==> fs.Executable(Current)) &&
            (after.Executable(Processed) <==> fs.Executable(Processed))
  {
    SeparateFromConsistent(fs, trimmed);
    if State in fs.dir {
      EmptyStateAside(fs, State);
    } else {
      SoundSteps(fs, State);
      StateCreate(fs, State, i);
    }
    AlikeConsistent(fs, after, trimmed);
    RecordedFrame(fs, after, order, accepted);
    hide Store.Consistent, Store.Sound;
  }

  /** A cleanly closed "current" is the only thing in flight. */
  lemma ExecutableCurrent(fs: Store, trimmed: set<Ino>, clock: nat, order: History, accepted: seq<Byte>)
    requires Good(fs, trimmed, clock, order, accepted) && fs.Executable(Current)
    ensures Previous !in fs.dir && Unprocessed(fs) && !fs.Archived(fs.dir[Current])
  {
  }

  lemma StepReopen(
      fs: Store, trimmed: set<Ino>, clock: nat, order: History, accepted: seq<Byte>, i: Ino, stamp: nat, child: Child)
    requires Good(fs, trimmed, clock, order, accepted) && fs.Links(Current, i)
    requires Previous !in fs.dir && Unprocessed(fs) && !fs.Archived(i)
    ensures Good(fs.Chmod(i, false), trimmed, clock, order, accepted)
    ensures InPhase(Writable, fs.Chmod(i, false), i, stamp, child)
  {
    ChmodCurrent(fs, false, trimmed);
    RecordedFrame(fs, fs.Chmod(i, false), order, accepted);
  }

  lemma StepFinalize(
      fs: Store, trimmed: set<Ino>, clock: nat, order: History, accepted: seq<Byte>, fd: Ino, stamp: nat,
      child: Child)
    requires Good(fs, trimmed, clock, order, accepted) && InPhase(EndFchmod, fs, fd, stamp, child)
    ensures Good(fs.Chmod(fd, true), trimmed, clock, order, accepted)
    ensures InPhase(End, fs.Chmod(fd, true), fd, stamp, child) && fs.Chmod(fd, true).Executable(Current)
  {
    ChmodCurrent(fs, true, trimmed);
    RecordedFrame(fs, fs.Chmod(fd, true), order, accepted);
  }

  /** From CHMODPREVIOUS on, the open file is a generation. */
  lemma WritesLog(
      fs: Store, trimmed: set<Ino>, clock: nat, order: History, accepted: seq<Byte>, rstate: Rotstate, fd: Ino,
      stamp: nat, child: Child)
    requires Good(fs, trimmed, clock, order, accepted) && InPhase(rstate, fs, fd, stamp, child) && rstate != End
    ensures fs.IsGeneration(fd)
  {
  }

  /** What the kernel may do: refuse any call and let the process be killed anywhere; not
      refuse stat, link and unlink, except perhaps a stat of the trimmer; or neither refuse
      anything nor kill, and write all that it is given. */
  datatype Kernel = Hostile | Obliging | Flawless {
    predicate Obliges() {
      !Hostile?
    }
  }

  /** What outlives the process. */
  class Disk {
    const kernel: Kernel
    var fs: Store
    var clock: nat
    ghost var trimmed: set<Ino>
    ghost var order: History
    ghost var accepted: seq<Byte>
    /** No failure has happened that the program takes for success. */
    ghost var faultless: bool
    /** What the trimmer has removed, and the limits of the processes there have been. */
    ghost var removals: seq<Removal>
    ghost var limits: set<(nat, nat)>

    ghost predicate Safe()
      reads this
    {
      && fs.Linked()
      && (faultless ==> Good(fs, trimmed, clock, order, accepted))
      && Justified()
      && (Spared() ==> faultless)
    }

    /** None of the failures that the program ignores can have happened: the calls concerned
        are not refused, and no count of archives can wrap with any of the limits. */
    ghost predicate Spared()
      reads this`order, this`limits
    {
      kernel.Obliges() && forall l <- limits :: l.0 + |order.gens| < UINT_WRAP
    }

    /** A generation is trimmed only by a process over whose limits the archives were. */
    ghost predicate Justified()
      reads this`trimmed, this`removals, this`limits
    {
      && (forall r <- removals :: Due(r) && (r.limit, r.maxDirSize) in limits)
      && (forall g :: g in trimmed <==> exists k :: 0 <= k < |removals| && removals[k].Origin() == g)
    }

    /** An empty directory. */
    constructor (kernel: Kernel)
      ensures Safe() && faultless && fs.dir == map[] && accepted == [] && trimmed == {} && limits == {} &&
              order == History([], {}, {})
      ensures this.kernel == kernel
    {
      this.kernel := kernel;
      fs := Store(map[], map[]);
      clock := 0;
      trimmed, order, accepted, faultless := {}, History([], {}, {}), [], true;
      removals, limits := [], {};
    }

    /** A process starts with these limits. */
    ghost method Allow(limit: nat, maxDirSize: nat, size: nat, tolerance: nat)
      requires Safe()
      modifies this`limits, this`order
      ensures Safe() && limits == old(limits) + {(limit, maxDirSize)}
      ensures order == old(order).(shapes := old(order).shapes + {(size, tolerance)})
    {
      hide Store.Consistent;
      limits := limits + {(limit, maxDirSize)};
      var after := order.(shapes := order.shapes + {(size, tolerance)});
      if faultless {
        StillClosed(fs, order, after, accepted);
      }
      order := after;
    }

    /** A generation ends before it is full. */
    ghost method Cut(g: Ino)
      requires Safe()
      modifies this`order
      ensures Safe() && order == old(order).(cut := old(order).cut + {g})
    {
      hide Store.Consistent;
      var after := order.(cut := order.cut + {g});
      if faultless {
        StillClosed(fs, order, after, accepted);
      }
      order := after;
    }

    lemma Refused()
      ensures !kernel.Obliges() ==> !Spared()
    {
    }

    /** The program carries on as if a failed step had succeeded. */
    ghost method IgnoreFault()
      requires Safe() && !Spared()
      modifies this`faultless
      ensures Safe() && !faultless
    {
      faultless := false;
    }

    /** taia_now_g: the clock never shows a time it has shown before. */
    method Now() returns (t: nat)
      modifies this`clock
      ensures t == clock > old(clock)
    {
      assert clock + 1 > clock;
      t :| t > clock;
      clock := t;
    }

    method Attempt() returns (o: Outcome)
      ensures kernel.Flawless? ==> o.Ok?
    {
      o := *;
      if kernel.Flawless? {
        o := Ok;
      }
    }

    /** stat, link or unlink */
    method Comply() returns (o: Outcome)
      ensures kernel.Flawless? ==> o.Ok?
      ensures kernel.Obliges() ==> !o.Fail?
    {
      o := Attempt();
      if kernel.Obliges() && o.Fail? {
        o := Ok;
      }
    }

    /** fork(2) in the parent, when it succeeds. */
    method SomePid() returns (p: nat)
      ensures p != 0
    {
      p := 1;
    }

    method Rename(from: Name, to: Name) returns (o: Outcome)
      modifies this`fs
      ensures o.Ok? ==> from in old(fs).dir && fs == old(fs).Rename(from, to)
      ensures !o.Ok? ==> fs == old(fs)
      ensures kernel.Flawless? ==> (o.Ok? <==> from in old(fs).dir) && !o.Killed?
    {
      o := Attempt();
      if o.Ok? && from !in fs.dir {
        o := Fail;
      } else if o.Ok? {
        fs := fs.Rename(from, to);
      }
    }

    /** link(2) refuses a name that exists. */
    method LinkNew(from: Name, to: Name) returns (o: Outcome, ghost taken: bool)
      requires from in fs.dir
      modifies this`fs
      ensures o.Ok? ==> to !in old(fs).dir && fs == old(fs).Link(from, to)
      ensures !o.Ok? ==> fs == old(fs)
      ensures taken ==> o.Fail? && to in fs.dir
      ensures o.Fail? && !taken ==> to !in fs.dir && !kernel.Obliges()
      ensures kernel.Flawless? ==> !o.Killed?
    {
      o := Comply();
      taken := !o.Killed? && to in fs.dir;
      if !o.Killed? && to in fs.dir {
        o := Fail;
      } else if o.Ok? {
        fs := fs.Link(from, to);
      }
    }

    /** unlink(2); ENOENT is reported apart from other failures. */
    method Unlink(n: Name) returns (o: Outcome, missing: bool)
      modifies this`fs
      ensures o.Ok? ==> n in old(fs).dir && fs == old(fs).Unlink(n)
      ensures !o.Ok? ==> fs == old(fs)
      ensures missing ==> o.Fail? && n !in fs.dir
      ensures o.Fail? && kernel.Obliges() ==> missing
      ensures kernel.Flawless? ==> !o.Killed?
    {
      o := Comply();
      missing := false;
      if o.Ok? && n !in fs.dir {
        o, missing := Fail, true;
      } else if o.Ok? {
        fs := fs.Unlink(n);
      }
    }

    method Chmod(n: Name, exec: bool) returns (o: Outcome)
      modifies this`fs
      ensures o.Ok? ==> n in old(fs).dir && old(fs).dir[n] in old(fs).files && fs == old(fs).Chmod(old(fs).dir[n], exec)
      ensures !o.Ok? ==> fs == old(fs)
      ensures kernel.Flawless? ==> (o.Ok? <==> n in old(fs).dir && old(fs).dir[n] in old(fs).files) && !o.Killed?
    {
      o := Attempt();
      if o.Ok? && (n !in fs.dir || fs.dir[n] !in fs.files) {
        o := Fail;
      } else if o.Ok? {
        fs := fs.Chmod(fs.dir[n], exec);
      }
    }

    method FChmod(i: Ino, exec: bool) returns (o: Outcome)
      modifies this`fs
      ensures o.Ok? ==> i in old(fs).files && fs == old(fs).Chmod(i, exec)
      ensures !o.Ok? ==> fs == old(fs)
      ensures kernel.Flawless? ==> (o.Ok? <==> i in old(fs).files) && !o.Killed?
    {
      o := Attempt();
      if o.Ok? && i !in fs.files {
        o := Fail;
      } else if o.Ok? {
        fs := fs.Chmod(i, exec);
      }
    }

    /** open_append: the file that n names, created when missing. */
    method OpenAppend(n: Name, k: Kind) returns (o: Outcome, i: Ino)
      modifies this`fs
      ensures o.Ok? && n in old(fs).dir ==> fs == old(fs) && i == fs.dir[n]
      ensures o.Ok? && n !in old(fs).dir ==> i !in old(fs).files && fs == old(fs).Create(n, i, k)
      ensures !o.Ok? ==> fs == old(fs)
      ensures kernel.Flawless? ==> o.Ok?
    {
      o := Attempt();
      i := 0;
      if o.Ok? && n in fs.dir {
        i := fs.dir[n];
      } else if o.Ok? {
        i := UnusedIno(fs.files.Keys);
        fs := fs.Create(n, i, k);
      }
    }

    /** open_trunc: an existing file is emptied but keeps its inode and mode. */
    method OpenTrunc(n: Name, k: Kind) returns (o: Outcome, i: Ino)
      modifies this`fs
      ensures o.Ok? && n in old(fs).dir ==> i == old(fs).dir[n] && i in old(fs).files && fs == old(fs).Replace(i, k, [])
      ensures o.Ok? && n !in old(fs).dir ==> i !in old(fs).files && fs == old(fs).Create(n, i, k)
      ensures !o.Ok? ==> fs == old(fs)
      ensures kernel.Flawless? && (n in old(fs).dir ==> old(fs).dir[n] in old(fs).files) ==> o.Ok?
    {
      o := Attempt();
      i := 0;
      if o.Ok? && n in fs.dir {
        i := fs.dir[n];
        if i in fs.files {
          fs := fs.Replace(i, k, []);
        } else {
          o := Fail;
        }
      } else if o.Ok? {
        i := UnusedIno(fs.files.Keys);
        fs := fs.Create(n, i, k);
      }
    }
  }

  method UnusedIno(used: set<Ino>) returns (i: Ino)
    ensures i !in used
  {
    i := 0;
    var left := used;
    while left != {}
      invariant forall x :: x in used && x !in left ==> x < i
      decreases left
    {
      var x :| x in left;
      left := left - {x};
      i := if i <= x then x + 1 else i;
    }
  }

  /** The entries of an archive listing, with the sizes stat(2) reports. */
  ghost predicate Listing(es: seq<Entry>, fs: Store, unstatable: set<Name>) {
    && AllArchives(es) && OldestFirst(es)
    && (forall n: Name :: n in Names(es) <==> n.Archive? && n in fs.dir && n !in unstatable)
    && (forall e <- es :: e.name in fs.dir && fs.dir[e.name] in fs.files && e.size == |fs.files[fs.dir[e.name]].data|)
  }

  /** Only archives are gone. */
  ghost predicate OnlyTrimmed(before: Store, after: Store) {
    && after.files == before.files
    && (forall n <- after.dir :: n in before.dir && before.dir[n] == after.dir[n])
    && (forall n <- before.dir | !n.Archive? :: n in after.dir)
  }

  /** One removal by the trimmer: the directory and the entries it went through, and
      the one it removed. */
  datatype Removal = Removal(
      fs: Store, es: seq<Entry>, unstatable: set<Name>, refused: set<Name>, n: nat, limit: nat, maxDirSize: nat)
  {
    function Origin(): Ino {
      if n < |es| && es[n].name in fs.dir then fs.Origin(fs.dir[es[n].name]) else 0
    }
  }

  /** The archives were over the limits when all older ones had been dealt with, or the
      trimmer was on its way past its entries. */
  ghost predicate Due(r: Removal) {
    && r.n < |r.es| && Listing(r.es, r.fs, r.unstatable) && r.es[r.n].name !in r.refused
    && (Over(r.es, r.n, r.refused, r.limit, r.maxDirSize) || Overruns(r.es, r.refused, r.limit, r.maxDirSize))
  }

  /** How many of these archives the trimmer removes if all its calls work; when it reads
      past its entries, it has removed them all. */
  function Gone(es: seq<Entry>, limit: nat, maxDirSize: nat): (k: nat)
    ensures k <= |es|
  {
    var k := Excess(es, limit, maxDirSize);
    if limit + k >= UINT_WRAP then |es| else k
  }

  /** What the trimmer leaves if all its calls work. */
  ghost predicate TrimmedTo(before: Store, after: Store, limit: nat, maxDirSize: nat) {
    exists es ::
      && Listing(es, before, {})
      && after.dir.Keys == before.dir.Keys - Names(es[..Gone(es, limit, maxDirSize)])
  }

  /** Which of finish's calls the kernel refuses: its own three, and those of the trimmer.
      A link whose name is taken is not among them. */
  datatype Calls = Calls(stat: bool, link: bool, unlink: bool, listed: bool, unstatable: set<Name>, refused: set<Name>)
  {
    predicate AllWork() {
      stat && link && unlink && listed && unstatable == {} && refused == {}
    }
  }

  /** finish gets as far as removing the old name. */
  predicate Removes(fs: Store, name: Name, archive: Name, calls: Calls) {
    && calls.stat && name in fs.dir && calls.unlink
    && (fs.LinkCount(name) == 1 ==> calls.link && archive !in fs.dir)
  }

  /** The directory that finish leaves, but for the trimmer. */
  function AfterFinish(fs: Store, name: Name, archive: Name, calls: Calls): Store {
    if !calls.stat || name !in fs.dir then fs
    else if fs.LinkCount(name) == 1 && (!calls.link || archive in fs.dir) then fs
    else
      var linked := if fs.LinkCount(name) == 1 then fs.Link(name, archive) else fs;
      if calls.unlink then linked.Unlink(name) else linked
  }

  /** The directory that finish leaves; it only trims when it has removed the old name. */
  ghost predicate FinishResult(
      before: Store, after: Store, name: Name, archive: Name, calls: Calls, limit: nat, maxDirSize: nat) {
    var done := AfterFinish(before, name, archive, calls);
    if Removes(before, name, archive, calls) then
      OnlyTrimmed(done, after) && (calls.AllWork() ==> TrimmedTo(done, after, limit, maxDirSize))
    else after == done
  }

  /** The trimmer reads past the entries that finish has made it list. */
  ghost predicate Overran(before: Store, name: Name, archive: Name, calls: Calls, limit: nat, maxDirSize: nat) {
    exists es ::
      Listing(es, AfterFinish(before, name, archive, calls), calls.unstatable) &&
          Overruns(es, calls.refused, limit, maxDirSize)
  }

  /** The "current" that a process finds which was not closed cleanly. */
  ghost function Interrupted(fs: Store): set<Ino> {
    if Current in fs.dir && !fs.Executable(Current) then {fs.dir[Current]} else {}
  }

  /** What finish does to the directory when nothing it ignores goes wrong. */
  ghost predicate FinishEffect(before: Store, after: Store, name: Name, archive: Name) {
    && after.files == before.files
    && (forall n: Name | !n.Archive? && n != name ::
        (n in after.dir <==> n in before.dir) && (n in after.dir ==> after.dir[n] == before.dir[n]))
    && (name !in after.dir || (name == Current && after == before && !before.Archived(before.dir[name])))
    && (forall n: Name | n in after.dir && n.Archive? ::
          (n in before.dir && after.dir[n] == before.dir[n]) ||
              (n == archive && name in before.dir && after.dir[n] == before.dir[name]))
    && (name in before.dir && before.LinkCount(name) == 1 && archive in before.dir ==> after == before)
  }

  /** The processor opens "processed" for its output, with inode i if it is new. */
  function OutputOpened(fs: Store, i: Ino): Store
    requires Previous in fs.dir && fs.Linked()
  {
    if Processed in fs.dir then fs.Replace(fs.dir[Processed], Output(fs.dir[Previous], false), [])
    else fs.Create(Processed, i, Output(fs.dir[Previous], false))
  }

  lemma Subset<T>(a: set<T>, b: set<T>)
    requires a <= b
    ensures |a| <= |b|
  {
    assert b == a + (b - a);
  }

  /** Every archive stands for a generation of its own. */
  lemma ArchivesFew(fs: Store, order: History, trimmed: set<Ino>, accepted: seq<Byte>)
    requires fs.Consistent(trimmed) && Recorded(fs, order, accepted)
    ensures |ArchiveNames(fs)| <= |order.gens|
  {
    var names := ArchiveNames(fs);
    var all := MembersOf(order.gens);
    forall n <- names ensures fs.Origin(fs.dir[n]) in all {
      assert fs.IsGeneration(fs.Origin(fs.dir[n]));
    }
    forall m, n | m in names && n in names && fs.Origin(fs.dir[m]) == fs.Origin(fs.dir[n]) ensures m == n {
      assert fs.Archives(m, fs.Origin(fs.dir[m])) && fs.Archives(n, fs.Origin(fs.dir[m]));
    }
    Injective(fs, names, all);
    Members(order.gens);
  }

  lemma {:induction false} Injective(fs: Store, names: set<Name>, all: set<Ino>)
    requires forall n <- names :: n in fs.dir && fs.Origin(fs.dir[n]) in all
    requires forall m, n | m in names && n in names && fs.Origin(fs.dir[m]) == fs.Origin(fs.dir[n]) :: m == n
    ensures |names| <= |all|
  {
    if names != {} {
      var n :| n in names;
      Injective(fs, names - {n}, all - {fs.Origin(fs.dir[n])});
    }
  }

  function MembersOf(order: seq<Ino>): set<Ino> {
    set g | g in order
  }

  lemma {:induction false} Members(order: seq<Ino>)
    ensures |MembersOf(order)| <= |order|
  {
    if order == [] {
      assert MembersOf(order) == {};
    } else {
      var k := |order| - 1;
      Members(order[..k]);
      assert order == order[..k] + [order[k]];
      assert MembersOf(order) == MembersOf(order[..k]) + {order[k]};
    }
  }

  /** Some of these names are gone, and nothing else has changed. */
  ghost predicate Without(before: Store, after: Store, names: set<Name>) {
    && after.files == before.files
    && (forall n <- after.dir :: n in before.dir && after.dir[n] == before.dir[n])
    && (forall n <- before.dir :: n in after.dir || n in names)
  }

  /** Recovery first removes what it does not go by. */
  ghost predicate Discards(before: Store, after: Store) {
    Without(before, after, {State, NewState, if before.Executable(Processed) then Previous else Processed})
  }

  /** The directory "met" is what finish is called on. */
  ghost predicate Recovers(
      before: Store, met: Store, after: Store, stamp: nat, calls: Calls, limit: nat, maxDirSize: nat) {
    && Discards(before, met)
    && if before.Executable(Processed) then
         Previous !in met.dir && FinishResult(met, after, Processed, Archive(stamp, Finished), calls, limit, maxDirSize)
       else FinishResult(met, after, Previous, Archive(stamp, Unfinished), calls, limit, maxDirSize)
  }

  function ArchiveNames(fs: Store): set<Name> {
    set n | n in fs.dir && n.Archive?
  }

  /** The clock has passed the stamps of all archives. */
  ghost predicate Passed(fs: Store, stamp: nat) {
    forall n <- fs.dir | n.Archive? :: n.stamp < stamp
  }

  /** The trimmer leaves the newest of these archives. */
  predicate NewestFits(es: seq<Entry>, limit: nat, maxDirSize: nat) {
    Gone(es, limit, maxDirSize) < |es|
  }

  /** A new archive of this size would not be trimmed at once. */
  ghost predicate Survives(fs: Store, size: nat, limit: nat, maxDirSize: nat) {
    exists es :: Listing(es, fs, {}) && NewestFits(es + [Entry(Previous, size)], limit, maxDirSize)
  }

  function SizeOf(fs: Store, n: Name): nat {
    if n in fs.dir && fs.dir[n] in fs.files then |fs.files[fs.dir[n]].data| else 0
  }

  /** The newest archive fits exactly if it is within the limits by itself and the trimmer
      does not read past its entries. */
  lemma NewestFitsIff(es: seq<Entry>, limit: nat, maxDirSize: nat)
    requires es != []
    ensures NewestFits(es, limit, maxDirSize) <==>
            limit > 0 && (maxDirSize == 0 || es[|es| - 1].size <= maxDirSize) &&
            limit + Excess(es, limit, maxDirSize) < UINT_WRAP
  {
    var last := |es| - 1;
    ExcessIsLeast(es, limit, maxDirSize, last);
    assert es[last..] == [es[last]] && Total([es[last]]) == es[last].size + Total([]);
  }

  lemma {:induction false} ListingSize(es: seq<Entry>)
    requires AllArchives(es) && OldestFirst(es)
    ensures |Names(es)| == |es|
  {
    if es == [] {
      assert Names(es) == {};
    } else {
      var n := |es| - 1;
      assert es == es[..n] + [es[n]];
      ListingSize(es[..n]);
      NamesAppend(es[..n], es[n]);
      assert es[n].name !in Names(es[..n]);
    }
  }

  lemma LastIsNewest(es: seq<Entry>, fs: Store, name: Name)
    requires Listing(es, fs, {}) && name in fs.dir && name.Archive? && fs.dir[name] in fs.files
    requires forall n <- fs.dir | n.Archive? && n != name :: n.stamp < name.stamp
    ensures Names(es) == ArchiveNames(fs) && |es| == |ArchiveNames(fs)|
    ensures es != [] && es[|es| - 1] == Entry(name, |fs.files[fs.dir[name]].data|)
    ensures name !in Names(es[..|es| - 1])
  {
    assert Names(es) == ArchiveNames(fs);
    ListingSize(es);
    var last := |es| - 1;
    var k :| 0 <= k < |es| && es[k].name == name;
    assert es[last] in es && es[last].name in Names(es);
    assert k == last;
  }

  /** There is one listing of a directory. */
  lemma {:induction false} SameListing(a: seq<Entry>, b: seq<Entry>)
    requires AllArchives(a) && OldestFirst(a) && AllArchives(b) && OldestFirst(b) && Names(a) == Names(b)
    requires forall x, y | x in a && y in b && x.name == y.name :: x == y
    ensures a == b
  {
    NoNames(a);
    NoNames(b);
    if a != [] && b != [] {
      var m, n := |a| - 1, |b| - 1;
      LastSame(a, b);
      Front(a);
      Front(b);
      hide Names;
      SameListing(a[..m], b[..n]);
    }
  }

  lemma NoNames(es: seq<Entry>)
    ensures es == [] <==> Names(es) == {}
  {
    if es != [] {
      assert es[0] in es && es[0].name in Names(es);
    }
  }

  lemma Front(es: seq<Entry>)
    requires es != [] && AllArchives(es) && OldestFirst(es)
    ensures var front, last := es[..|es| - 1], es[|es| - 1];
            && es == front + [last] && AllArchives(front) && OldestFirst(front)
            && Names(front) == Names(es) - {last.name} && forall e <- front :: e in es
  {
    var front, last := es[..|es| - 1], es[|es| - 1];
    assert es == front + [last];
    NamesAppend(front, last);
    assert last.name !in Names(front);
  }

  lemma LastSame(a: seq<Entry>, b: seq<Entry>)
    requires a != [] && b != []
    requires AllArchives(a) && OldestFirst(a) && AllArchives(b) && OldestFirst(b) && Names(a) == Names(b)
    requires forall x, y | x in a && y in b && x.name == y.name :: x == y
    ensures a[|a| - 1] == b[|b| - 1]
  {
    var m, n := |a| - 1, |b| - 1;
    assert a[m] in a && b[n] in b && a[m].name in Names(b) && b[n].name in Names(a);
    var k :| 0 <= k < |b| && b[k].name == a[m].name;
    var j :| 0 <= j < |a| && a[j].name == b[n].name;
    assert a[j] in a && b[k] in b;
  }

  /** A trimmer whose calls all work keeps the newest archive exactly if it fits. */
  lemma NewestKept(before: Store, after: Store, name: Name, limit: nat, maxDirSize: nat)
    requires TrimmedTo(before, after, limit, maxDirSize)
    requires name in before.dir && name.Archive? && before.dir[name] in before.files
    requires forall n <- before.dir | n.Archive? && n != name :: n.stamp < name.stamp
    ensures name in after.dir <==> exists es :: Listing(es, before, {}) && NewestFits(es, limit, maxDirSize)
  {
    var es := NewestIn(before, after, name, limit, maxDirSize);
    forall other | Listing(other, before, {}) ensures other == es {
      SameListing(other, es);
    }
  }

  lemma NewestIn(before: Store, after: Store, name: Name, limit: nat, maxDirSize: nat) returns (es: seq<Entry>)
    requires TrimmedTo(before, after, limit, maxDirSize)
    requires name in before.dir && name.Archive? && before.dir[name] in before.files
    requires forall n <- before.dir | n.Archive? && n != name :: n.stamp < name.stamp
    ensures Listing(es, before, {}) && es != [] && es[|es| - 1] == Entry(name, |before.files[before.dir[name]].data|)
    ensures name in after.dir <==> NewestFits(es, limit, maxDirSize)
  {
    hide Listing, Gone, ArchiveNames;
    es :| Listing(es, before, {})
      && after.dir.Keys == before.dir.Keys - Names(es[..Gone(es, limit, maxDirSize)]);
    LastIsNewest(es, before, name);
    var last, gone := |es| - 1, Gone(es, limit, maxDirSize);
    if gone == |es| {
      assert es[..gone] == es && es[last] in es;
    } else {
      SubNames(es, gone, last);
    }
  }

  lemma SubNames(es: seq<Entry>, j: nat, k: nat)
    requires j <= k <= |es|
    ensures Names(es[..j]) <= Names(es[..k])
  {
    assert forall e <- es[..j] :: e in es[..k];
  }

  lemma SingleUnarchived(fs: Store, name: Name, trimmed: set<Ino>)
    requires fs.Consistent(trimmed) && name in {Current, Previous, Processed} && name in fs.dir &&
            fs.LinkCount(name) == 1
    requires name == Processed ==> fs.Executable(Processed)
    ensures !fs.Archived(fs.Origin(fs.dir[name]))
  {
    OtherLink(fs, name);
  }

  lemma EffectOfFinish(before: Store, linked: Store, after: Store, name: Name, archive: Name)
    requires name in {Current, Previous, Processed} && archive.Archive? && name in before.dir
    requires linked == before || (archive !in before.dir && linked == before.Link(name, archive))
    requires before.LinkCount(name) == 1 ==> linked != before
    requires OnlyTrimmed(linked.Unlink(name), after)
    ensures FinishEffect(before, after, name, archive)
  {
  }

  /** What the count says of a file to which the first k bytes of s have been added. */
  lemma CountStep(data: seq<Byte>, s: seq<Byte>, k: nat, b: nat, size: nat, tolerance: nat)
    requires b < size && b <= |data| && s != [] && 1 <= k <= Chunk(s, b, size, tolerance)
    ensures var file, c := data + s[..k], (b + k) % UINT_WRAP;
            var late := (c + tolerance) % UINT_WRAP >= size && s[k - 1] == NEWLINE;
            && c <= |file| && (late ==> Filled(file, size, tolerance))
            && (b == |data| && NoLateNewline(data, size, tolerance) && FitsWord(s, size, tolerance)
                && k == Chunk(s, b, size, tolerance) ==>
                  c == |file| <= size && (!late ==> NoLateNewline(file, size, tolerance)))
  {
    hide Chunk, NoLateNewline;
    assert (data + s[..k])[|data| + k - 1] == s[k - 1];
    if b == |data| && NoLateNewline(data, size, tolerance) && FitsWord(s, size, tolerance) {
      ChunkKeepsLines(data, s, size, tolerance);
    }
  }

  lemma CountFits(s: seq<Byte>, k: nat, b: nat, size: nat, tolerance: nat)
    requires b < size && s != [] && 1 <= k <= Chunk(s, b, size, tolerance)
    ensures FitsWord(s, size, tolerance) ==> (b + k) % UINT_WRAP == b + k <= size
  {
  }

  class LogDir {
    const disk: Disk
    const size: nat        // s
    const limit: Word      // n
    const tolerance: nat
    const maxDirSize: nat
    const processor: bool
    var b: nat
    var pid: nat
    var fd: Ino
    var rstate: Rotstate
    /** STAMP: the time that timestamp_g formats, as last read from the clock. */
    var stamp: nat
    var child: Child
    /** This process filled the open file from empty, with full writes only and
        no sum that wraps. */
    ghost var tidy: bool

    /** What holds whenever the process is idle. */
    ghost predicate Phase()
      reads this, disk
    {
      && disk.Safe() && (limit, maxDirSize) in disk.limits && (!processor ==> !rstate.Processing())
      && (size, tolerance) in disk.order.shapes
      && (disk.faultless ==> InPhase(rstate, disk.fs, fd, stamp, child) && stamp <= disk.clock)
      && (disk.faultless && (rstate.Start? || rstate.RenameCurrent?) ==> Closed(disk.fs, disk.order, fd))
    }

    /** The open file is an empty generation other than the one open before. */
    predicate NewFile(before: Ino)
      reads this, disk
    {
      fd != before && fd in disk.fs.files && disk.fs.files[fd].data == []
    }

    /** No step of a rotation changes what has been logged, or undoes a trim. */
    ghost predicate RotateFrame(before: Store, trimmed: set<Ino>, faultless: bool)
      reads disk
    {
      disk.Safe() && trimmed <= disk.trimmed && (disk.faultless ==> faultless && LogsKept(before, disk.fs))
    }

    lemma IdleSafe()
      requires Phase()
      ensures disk.Safe() && (!processor ==> !rstate.Processing())
    {
    }

    /** The open file is a generation, whatever the state. */
    lemma OpenIsLog()
      requires Phase() && !rstate.End?
      ensures disk.faultless ==> disk.fs.IsGeneration(fd)
    {
      if disk.faultless {
        WritesLog(disk.fs, disk.trimmed, disk.clock, disk.order, disk.accepted, rstate, fd, stamp, child);
      }
    }

    constructor (disk: Disk, size: nat, limit: Word, tolerance: nat, maxDirSize: nat, processor: bool)
      ensures this.disk == disk && this.size == size && this.limit == limit && this.tolerance == tolerance
      ensures this.maxDirSize == maxDirSize && this.processor == processor
    {
      this.disk, this.size, this.limit, this.tolerance := disk, size, limit, tolerance;
      this.maxDirSize, this.processor := maxDirSize, processor;
      b, pid, fd, rstate, stamp, child := 0, 0, 0, Writable, 0, NoChild;
      tidy := false;
    }

    /** logdir_trim.  "unstatable" and "refused" are the names for which stat(2)
        and unlink(2) fail; "es" are the entries it collected, oldest first. */
    method LogdirTrim(unstatable: set<Name>, refused: set<Name>) returns (r: TrimResult, ghost es: seq<Entry>)
      requires disk.Safe() && (disk.faultless ==> disk.fs.Single()) && (limit, maxDirSize) in disk.limits
      requires disk.kernel.Obliges() ==> refused == {}
      modifies disk`fs, disk`trimmed, disk`faultless, disk`removals
      ensures disk.Safe() && (disk.faultless ==> disk.fs.Single() && old(disk.faultless))
      ensures r.Overrun? || disk.faultless == old(disk.faultless)
      ensures disk.kernel.Flawless? ==> r.Removed? || r.Overrun?
      ensures OnlyTrimmed(old(disk.fs), disk.fs) && old(disk.trimmed) <= disk.trimmed
      ensures r.Removed? || r.Overrun? ==> Listing(es, old(disk.fs), unstatable)
      ensures r.Unreadable? ==> disk.fs == old(disk.fs) && disk.trimmed == old(disk.trimmed)
      ensures r.Overrun? ==> Overruns(es, refused, limit, maxDirSize)
      ensures r.Removed? ==> Trimmed(es, r.count, refused, limit, maxDirSize)
      ensures r.Removed? ==> disk.fs.dir.Keys == old(disk.fs).dir.Keys - (Names(es[..r.count]) - refused)
      ensures r.Overrun? ==> disk.fs.dir.Keys == old(disk.fs).dir.Keys - (Names(es) - refused)
    {
      es := [];
      var o := disk.Attempt();
      if o.Killed? {
        return TrimDied, es;
      }
      if o.Fail? {
        return Unreadable, es;
      }
      var entries, total := Collect(unstatable);
      SortSorts(entries);
      SortTotal(entries);
      var sorted := Sort(entries);
      es := sorted;
      ListingSorted(entries, sorted, disk.fs, unstatable);
      var i := |sorted|;
      if i <= limit && (maxDirSize == 0 || total <= maxDirSize) {
        NoneNeeded(sorted, refused, limit, maxDirSize);
        return Removed(0), es;
      }
      r := RemoveOldest(sorted, total, refused, unstatable);
    }

    /** The trimming loop; it reads past its entries when it runs out of them. */
    method RemoveOldest(
        sorted: seq<Entry>, size: nat, refused: set<Name>, ghost unstatable: set<Name>) returns (r: TrimResult)
      requires disk.Safe() && (disk.faultless ==> disk.fs.Single()) && (limit, maxDirSize) in disk.limits
      requires Listing(sorted, disk.fs, unstatable) && size == Total(sorted)
      requires disk.kernel.Obliges() ==> refused == {}
      modifies disk`fs, disk`trimmed, disk`faultless, disk`removals
      ensures disk.Safe() && (disk.faultless ==> disk.fs.Single())
      ensures disk.faultless == (old(disk.faultless) && !r.Overrun?)
      ensures OnlyTrimmed(old(disk.fs), disk.fs) && old(disk.trimmed) <= disk.trimmed
      ensures !r.Unreadable? && (disk.kernel.Flawless? ==> !r.TrimDied?)
      ensures r.Overrun? ==> Overruns(sorted, refused, limit, maxDirSize)
      ensures r.Removed? ==> Trimmed(sorted, r.count, refused, limit, maxDirSize)
      ensures r.Removed? ==> disk.fs.dir.Keys == old(disk.fs).dir.Keys - (Names(sorted[..r.count]) - refused)
      ensures r.Overrun? ==> disk.fs.dir.Keys == old(disk.fs).dir.Keys - (Names(sorted) - refused)
    {
      hide Good, Gone, InPhase, Closed, AllClosed, Disk.Safe, Disk.Spared, Store.Single, Progress, Overruns, Trimmed,
        Guard, Listing, Due, Removal.Origin,
        Total, Stuck;
      FewEntries(sorted, unstatable);
      var n: nat, total: nat := 0, size;
      ProgressStart(sorted, refused, limit, maxDirSize);
      assert Names(sorted[..0]) == {};
      while Guard(|sorted|, n, total, limit, maxDirSize)
        invariant n <= |sorted|
        invariant Progress(sorted, n, total, refused, limit, maxDirSize)
        invariant OnlyTrimmed(old(disk.fs), disk.fs) && old(disk.trimmed) <= disk.trimmed
        invariant disk.fs.dir.Keys == old(disk.fs).dir.Keys - (Names(sorted[..n]) - refused)
        invariant disk.faultless == old(disk.faultless)
        invariant disk.Safe() && (disk.faultless ==> disk.fs.Single())
        invariant disk.Spared() ==> |sorted| <= |disk.order.gens|
        decreases |sorted| - n
      {
        if n == |sorted| {
          assert sorted[..n] == sorted;
          ProgressOverrun(sorted, total, refused, limit, maxDirSize);
          CannotOverrun(sorted, refused);
          disk.IgnoreFault();
          return Overrun;
        }
        var o;
        o, total := RemoveNext(sorted, n, total, refused, unstatable, old(disk.fs));
        if o.Killed? {
          return TrimDied;
        }
        n := n + 1;
      }
      ProgressEnd(sorted, n, total, refused, limit, maxDirSize);
      return Removed(n);
    }

    /** One round of that loop. */
    method RemoveNext(
        sorted: seq<Entry>, n: nat, total: nat, refused: set<Name>, ghost unstatable: set<Name>, ghost start: Store)
      returns (o: Outcome, left: nat)
      requires disk.Safe() && (disk.faultless ==> disk.fs.Single()) && (limit, maxDirSize) in disk.limits
      requires Listing(sorted, start, unstatable) && n < |sorted| && Guard(|sorted|, n, total, limit, maxDirSize)
      requires Progress(sorted, n, total, refused, limit, maxDirSize) && OnlyTrimmed(start, disk.fs)
      requires disk.fs.dir.Keys == start.dir.Keys - (Names(sorted[..n]) - refused)
      modifies disk`fs, disk`trimmed, disk`removals
      ensures disk.Safe() && (disk.faultless ==> disk.fs.Single()) && old(disk.trimmed) <= disk.trimmed
      ensures OnlyTrimmed(start, disk.fs) && !o.Fail? && (disk.kernel.Flawless? ==> o.Ok?)
      ensures o.Ok? ==> Progress(sorted, n + 1, left, refused, limit, maxDirSize)
      ensures o.Ok? ==> disk.fs.dir.Keys == start.dir.Keys - (Names(sorted[..n + 1]) - refused)
    {
      hide Disk.Safe, Disk.Spared, Store.Single, Progress, Overruns, Guard, Listing, Due, Removal.Origin, Total, Stuck;
      ProgressStep(sorted, n, total, refused, limit, maxDirSize);
      TrimStep(sorted, n);
      TrimPending(sorted, n, refused, start, disk.fs, unstatable);
      ghost var entry := Removal(start, sorted, unstatable, refused, n, limit, maxDirSize);
      RemovalDue(entry, disk.fs);
      o := RemoveArchive(sorted[n].name, refused, entry);
      left := total;
      if o.Ok? && sorted[n].name !in refused {
        left := total - sorted[n].size;
      }
    }

    method RemoveArchive(n: Name, refused: set<Name>, ghost entry: Removal) returns (o: Outcome)
      requires disk.Safe() && (disk.faultless ==> disk.fs.Single())
      requires n.Archive? && n in disk.fs.dir && (entry.limit, entry.maxDirSize) in disk.limits
      requires n !in refused ==> Due(entry) && entry.Origin() == disk.fs.Origin(disk.fs.dir[n])
      modifies disk`fs, disk`trimmed, disk`removals
      ensures disk.Safe() && (disk.faultless ==> disk.fs.Single())
      ensures old(disk.trimmed) <= disk.trimmed
      ensures o.Ok? && n !in refused ==> disk.fs == old(disk.fs).Unlink(n)
      ensures o.Killed? || n in refused ==> disk.fs == old(disk.fs)
      ensures !o.Fail? && (disk.kernel.Flawless? ==> o.Ok?)
    {
      o := disk.Attempt();
      if o.Killed? {
        return;
      }
      if n !in refused {
        if disk.faultless {
          TrimArchive(disk.fs, n, disk.trimmed);
          RecordedFrame(disk.fs, disk.fs.Unlink(n), disk.order, disk.accepted);
        }
        Enter(entry, disk.fs.Origin(disk.fs.dir[n]));
        disk.fs := disk.fs.Unlink(n);
      }
      o := Ok;
    }

    /** There are no more archives than generations. */
    lemma FewEntries(es: seq<Entry>, unstatable: set<Name>)
      requires disk.Safe() && Listing(es, disk.fs, unstatable)
      ensures disk.faultless || disk.Spared() ==> |es| <= |disk.order.gens|
    {
      if disk.faultless {
        ArchivesFew(disk.fs, disk.order, disk.trimmed, disk.accepted);
        ListingSize(es);
        Subset(Names(es), ArchiveNames(disk.fs));
      }
    }

    /** So the sum of the count limit and the number of removals does not wrap. */
    lemma CannotOverrun(es: seq<Entry>, refused: set<Name>)
      requires (limit, maxDirSize) in disk.limits && (disk.Spared() ==> |es| <= |disk.order.gens|)
      requires (disk.kernel.Obliges() ==> refused == {}) && Overruns(es, refused, limit, maxDirSize)
      ensures !disk.Spared()
    {
      NothingStuck(es);
    }

    /** The record of a removal. */
    ghost method Enter(entry: Removal, g: Ino)
      requires disk.Justified() && Due(entry) && entry.Origin() == g && (entry.limit, entry.maxDirSize) in disk.limits
      modifies disk`trimmed, disk`removals
      ensures disk.Justified() && disk.trimmed == old(disk.trimmed) + {g}
    {
      hide Due;
      disk.trimmed := disk.trimmed + {g};
      disk.removals := disk.removals + [entry];
      forall h ensures h in disk.trimmed <==> exists k :: 0 <= k < |disk.removals| && disk.removals[k].Origin() == h {
        if h == g {
          assert disk.removals[|disk.removals| - 1].Origin() == h;
        } else if h in old(disk.trimmed) {
          var k :| 0 <= k < |old(disk.removals)| && old(disk.removals)[k].Origin() == h;
          assert disk.removals[k].Origin() == h;
        }
      }
    }

    /** finish may be called: nothing but "name" may be half archived, and the name that
        it would make is free. */
    ghost predicate MayFinish(name: Name, suffix: Suffix)
      reads this, disk
    {
      && disk.Safe() && (limit, maxDirSize) in disk.limits
      && (disk.faultless ==>
            && stamp <= disk.clock
            && (name != Current && name in disk.fs.dir && disk.fs.LinkCount(name) == 1 ==>
                Archive(stamp, suffix) !in disk.fs.dir)
            && (name == Current ==> Previous !in disk.fs.dir && Unprocessed(disk.fs) && !disk.fs.Executable(Current))
            && (name == Current && Current in disk.fs.dir ==> disk.fs.dir[Current] in disk.order.cut)
            && (name == Previous ==> Unprocessed(disk.fs))
            && (name == Processed ==>
                Previous !in disk.fs.dir && (Processed in disk.fs.dir ==> disk.fs.Executable(Processed))))
    }

    /** finish: give the file an archive name unless it has one, remove the old
        name, trim.  It returns 0 when stat, link or unlink fail, which its
        callers take for success. */
    method Finish(name: Name, suffix: Suffix) returns (r: Ret, ghost calls: Calls)
      requires name in {Current, Previous, Processed} && MayFinish(name, suffix)
      modifies disk`fs, disk`trimmed, disk`faultless, disk`removals
      ensures disk.Safe() && (disk.faultless ==> old(disk.faultless)) && old(disk.trimmed) <= disk.trimmed
      ensures r.Returned? ==>
              FinishResult(old(disk.fs), disk.fs, name, Archive(stamp, suffix), calls, limit, maxDirSize)
      ensures r.Returned? && old(disk.faultless) && !disk.faultless ==>
                || !calls.stat || !calls.link || !calls.unlink
                || Overran(old(disk.fs), name, Archive(stamp, suffix), calls, limit, maxDirSize)
      ensures r.Returned? && disk.faultless ==> FinishEffect(old(disk.fs), disk.fs, name, Archive(stamp, suffix))
      ensures old(disk.fs).files == disk.fs.files
      ensures disk.kernel.Flawless? ==> r.Returned? && r.value >= 0 && calls.AllWork()
      ensures disk.kernel.Obliges() && r.Returned? ==> calls.stat && calls.link && calls.unlink && calls.refused == {}
    {
      hide Disk.Justified, Disk.Spared, Closed;
      disk.Refused();
      calls := Calls(true, true, true, true, {}, {});
      var o := disk.Comply();
      if o.Killed? {
        return Died, calls;
      }
      if o.Fail? {
        calls := calls.(stat := false);
        if name != Current || (name in disk.fs.dir && disk.fs.Archived(disk.fs.dir[name])) {
          disk.IgnoreFault();
        }
        return Returned(0), calls;
      }
      if name !in disk.fs.dir {
        return Returned(1), calls;
      }
      r, calls := FinishFound(name, suffix);
    }

    /** finish, when it has found the file. */
    method FinishFound(name: Name, suffix: Suffix) returns (r: Ret, ghost calls: Calls)
      requires name in {Current, Previous, Processed} && MayFinish(name, suffix) && name in disk.fs.dir
      modifies disk`fs, disk`trimmed, disk`faultless, disk`removals
      ensures disk.Safe() && (disk.faultless ==> old(disk.faultless)) && old(disk.trimmed) <= disk.trimmed
      ensures r.Returned? ==>
              FinishResult(old(disk.fs), disk.fs, name, Archive(stamp, suffix), calls, limit, maxDirSize)
      ensures r.Returned? && old(disk.faultless) && !disk.faultless ==>
                || !calls.stat || !calls.link || !calls.unlink
                || Overran(old(disk.fs), name, Archive(stamp, suffix), calls, limit, maxDirSize)
      ensures r.Returned? && disk.faultless ==> FinishEffect(old(disk.fs), disk.fs, name, Archive(stamp, suffix))
      ensures old(disk.fs).files == disk.fs.files
      ensures disk.kernel.Flawless? ==> r.Returned? && r.value >= 0 && calls.AllWork()
      ensures disk.kernel.Obliges() && r.Returned? ==> calls.stat && calls.link && calls.unlink && calls.refused == {}
    {
      hide Good, Overruns, Overran, TrimmedTo, Listing, Disk.Justified, Disk.Spared, Closed;
      disk.Refused();
      calls := Calls(true, true, true, true, {}, {});
      var o;
      ghost var before := disk.fs;
      if disk.fs.LinkCount(name) == 1 {
        if disk.faultless {
          GoodConsistent(disk.fs, disk.trimmed, disk.clock, disk.order, disk.accepted);
          SingleUnarchived(disk.fs, name, disk.trimmed);
        }
        ghost var taken;
        o, taken := FinishLink(name, Archive(stamp, suffix));
        if o.Killed? {
          return Died, calls;
        }
        if o.Fail? {
          calls := calls.(link := taken);
          if name != Current && !taken {
            disk.IgnoreFault();
          }
          return Returned(0), calls;
        }
      }
      r, calls := FinishNamed(name, Archive(stamp, suffix), before);
    }

    /** finish, when the file has another name. */
    method FinishNamed(name: Name, archive: Name, ghost before: Store) returns (r: Ret, ghost calls: Calls)
      requires name in {Current, Previous, Processed} && name in disk.fs.dir && disk.fs.LinkCount(name) != 1
      requires disk.Safe() && (disk.faultless && name == Processed ==> disk.fs.Executable(Processed)) &&
              (limit, maxDirSize) in disk.limits
      requires disk.faultless && name == Current ==> disk.fs.dir[Current] in disk.order.cut
      requires archive.Archive? && name in before.dir
      requires if before.LinkCount(name) == 1 then archive !in before.dir && disk.fs == before.Link(name, archive)
               else disk.fs == before
      modifies disk`fs, disk`trimmed, disk`faultless, disk`removals
      ensures disk.Safe() && (disk.faultless ==> old(disk.faultless)) && old(disk.trimmed) <= disk.trimmed
      ensures r.Returned? ==> FinishResult(before, disk.fs, name, archive, calls, limit, maxDirSize)
      ensures r.Returned? && old(disk.faultless) && !disk.faultless ==>
              !calls.stat || !calls.link || !calls.unlink || Overran(before, name, archive, calls, limit, maxDirSize)
      ensures r.Returned? && disk.faultless ==> FinishEffect(before, disk.fs, name, archive)
      ensures before.files == disk.fs.files
      ensures disk.kernel.Flawless? ==> r.Returned? && r.value >= 0 && calls.AllWork()
      ensures disk.kernel.Obliges() && r.Returned? ==> calls.stat && calls.link && calls.unlink && calls.refused == {}
    {
      hide Overruns, TrimmedTo, Listing, Good, FinishEffect, Disk.Safe;
      ghost var linked := disk.fs;
      r, calls := FinishUnlink(name);
      if r.Returned? && disk.faultless {
        EffectOfFinish(before, linked, disk.fs, name, archive);
      }
    }

    method FinishLink(name: Name, archive: Name) returns (o: Outcome, ghost taken: bool)
      requires archive.Archive? && MayFinish(name, archive.suffix) && archive.stamp == stamp
      requires name in {Current, Previous, Processed} && name in disk.fs.dir && disk.fs.LinkCount(name) == 1
      modifies disk`fs
      ensures disk.Safe()
      ensures o.Ok? ==>
              archive !in old(disk.fs).dir && disk.fs == old(disk.fs).Link(name, archive) &&
              disk.fs.LinkCount(name) != 1
      ensures !o.Ok? ==> disk.fs == old(disk.fs)
      ensures o.Fail? ==> (taken <==> archive in disk.fs.dir)
      ensures (o.Fail? && disk.kernel.Obliges() ==> taken) && (disk.kernel.Flawless? ==> !o.Killed?)
    {
      hide Disk.Justified, Disk.Spared, Closed;
      ghost var before := disk.fs;
      o, taken := disk.LinkNew(name, archive);
      if o.Ok? {
        if disk.faultless {
          LinkArchives(before, name, archive, disk.trimmed);
          RecordedFrame(before, disk.fs, disk.order, disk.accepted);
        }
        OtherLink(disk.fs, name);
        assert disk.fs.dir[archive] == disk.fs.dir[name];
      }
    }

    method FinishUnlink(name: Name) returns (r: Ret, ghost calls: Calls)
      requires name in {Current, Previous, Processed} && name in disk.fs.dir && disk.fs.LinkCount(name) != 1
      requires disk.Safe() && (disk.faultless && name == Processed ==> disk.fs.Executable(Processed)) &&
              (limit, maxDirSize) in disk.limits
      requires disk.faultless && name == Current ==> disk.fs.dir[Current] in disk.order.cut
      modifies disk`fs, disk`trimmed, disk`faultless, disk`removals
      ensures disk.Safe() && (disk.faultless ==> old(disk.faultless)) && old(disk.trimmed) <= disk.trimmed
      ensures calls.stat && calls.link && (!calls.unlink && r.Returned? ==> disk.fs == old(disk.fs) && !disk.faultless)
      ensures r.Returned? && calls.unlink ==> OnlyTrimmed(old(disk.fs).Unlink(name), disk.fs)
      ensures r.Returned? && calls.AllWork() ==> TrimmedTo(old(disk.fs).Unlink(name), disk.fs, limit, maxDirSize)
      ensures r.Returned? && calls.unlink && old(disk.faultless) && !disk.faultless ==>
                exists es ::
                    Listing(es, old(disk.fs).Unlink(name), calls.unstatable) &&
                    Overruns(es, calls.refused, limit, maxDirSize)
      ensures old(disk.fs).files == disk.fs.files
      ensures disk.kernel.Flawless? ==> r.Returned? && r.value >= 0 && calls.AllWork()
      ensures disk.kernel.Obliges() && r.Returned? ==> calls.stat && calls.link && calls.unlink && calls.refused == {}
    {
      hide Good, TrimmedTo, Trimmed, Overruns, Listing, OnlyTrimmed;
      ghost var before := disk.fs;
      calls := Calls(true, true, true, true, {}, {});
      var o, missing := disk.Unlink(name);
      if o.Killed? {
        return Died, calls;
      }
      if o.Fail? {
        disk.IgnoreFault();
        return Returned(0), calls.(unlink := false);
      }
      if disk.faultless {
        StepUnlink(before, disk.trimmed, disk.clock, disk.order, disk.accepted, name);
      }
      var unstatable: set<Name>, refused: set<Name> := *, *;
      if disk.kernel.Obliges() {
        refused := {};
      }
      if disk.kernel.Flawless? {
        unstatable := {};
      }
      var t, es := LogdirTrim(unstatable, refused);
      TrimmedAll(before.Unlink(name), disk.fs, es, unstatable, refused, t, limit, maxDirSize);
      calls := Calls(true, true, true, !t.Unreadable?, unstatable, refused);
      match t
      case TrimDied => return Died, calls;
      case Unreadable => return Returned(-1), calls;
      case Overrun => return Returned(0), calls;
      case Removed(count) => return Returned(count), calls;
    }

    // ----- the rotation, one state at a time -----

    /** START: sync "current" and read the clock. */
    method SyncCurrent() returns (o: Outcome)
      requires rstate.Start? && Phase()
      modifies this`rstate, this`stamp, disk`clock
      ensures Phase()
      ensures o.Ok? ==> rstate.RenameCurrent?
      ensures !o.Ok? ==> rstate.Start?
      ensures disk.kernel.Flawless? ==> o.Ok?
    {
      o := disk.Attempt();
      if o.Ok? {
        stamp := disk.Now();
        rstate := RenameCurrent;
      }
    }

    /** RENAME: "current" becomes "previous". */
    method MoveCurrent() returns (o: Outcome)
      requires rstate.RenameCurrent? && Phase()
      modifies this`rstate, disk`fs
      ensures Phase() && disk.fs.files == old(disk.fs).files
      ensures o.Ok? ==> rstate.NewCurrent?
      ensures !o.Ok? ==> rstate.RenameCurrent?
      ensures disk.kernel.Flawless? ==> !o.Killed? && (disk.faultless ==> o.Ok?)
    {
      hide Disk.Justified, Disk.Spared, Closed;
      ghost var before := disk.fs;
      o := disk.Rename(Current, Previous);
      if o.Ok? {
        if disk.faultless {
          StepRename(before, disk.trimmed, disk.clock, disk.order, disk.accepted, fd, stamp, child);
        }
        rstate := NewCurrent;
      }
    }

    /** open_append("current"), which starts a generation when the name is free. */
    method OpenCurrent() returns (o: Outcome, i: Ino)
      requires disk.Safe()
      modifies disk`fs, disk`order
      ensures disk.Safe()
      ensures o.Ok? && Current in old(disk.fs).dir ==> disk.fs == old(disk.fs) && i == disk.fs.dir[Current]
      ensures o.Ok? && Current !in old(disk.fs).dir ==>
              i !in old(disk.fs).files && disk.fs == old(disk.fs).Create(Current, i, Log)
      ensures !o.Ok? ==> disk.fs == old(disk.fs)
      ensures disk.faultless ==> forall g :: disk.fs.Archived(g) <==> old(disk.fs).Archived(g)
      ensures disk.faultless && o.Ok? && Current !in old(disk.fs).dir ==> !old(disk.fs).Archived(i)
      ensures disk.kernel.Flawless? ==> o.Ok?
      ensures old(disk.order).Grows(disk.order, 1)
    {
      hide Disk.Justified;
      ghost var before := disk.fs;
      o, i := disk.OpenAppend(Current, Log);
      if o.Ok? && Current !in before.dir {
        disk.order := disk.order.Plus(i);
        if disk.faultless {
          StepCreate(before, disk.trimmed, disk.clock, old(disk.order), disk.accepted, i);
        }
      }
    }

    /** NEWCURRENT: open a new "current" and write to it from now on. */
    method SwitchCurrent() returns (o: Outcome)
      requires rstate.NewCurrent? && Phase()
      modifies this`rstate, this`fd, this`b, this`tidy, disk`fs, disk`order
      ensures Phase()
      ensures LogsKept(old(disk.fs), disk.fs)
      ensures o.Ok? ==> rstate.ChmodPrevious? && b == 0 && tidy
      ensures o.Ok? && disk.faultless ==> fd != old(fd) && fd in disk.fs.files && disk.fs.files[fd].data == []
      ensures !o.Ok? ==> rstate.NewCurrent? && fd == old(fd) && b == old(b) && tidy == old(tidy)
      ensures disk.kernel.Flawless? ==> o.Ok?
      ensures old(disk.order).Grows(disk.order, 1)
    {
      hide Good, InPhase, Store.Consistent, Disk.Justified, Disk.Spared, Closed;
      var i;
      o, i := OpenNew();
      if !o.Ok? {
        return;
      }
      o := disk.Attempt();
      if !o.Ok? {
        return;
      }
      ghost var before := disk.fs;
      o := disk.FChmod(i, false);
      if o.Ok? {
        if disk.faultless {
          StepSwitch(before, disk.trimmed, disk.clock, disk.order, disk.accepted, fd, i, stamp, child);
        }
        fd, b, tidy := i, 0, true;
        rstate := ChmodPrevious;
      }
    }

    /** The new "current" of a rotation, or the one that an earlier attempt has opened. */
    method OpenNew() returns (o: Outcome, i: Ino)
      requires rstate.NewCurrent? && Phase()
      modifies disk`fs, disk`order
      ensures Phase() && LogsKept(old(disk.fs), disk.fs) && (o.Ok? ==> disk.fs.Links(Current, i))
      ensures disk.kernel.Flawless? ==> o.Ok?
      ensures old(disk.order).Grows(disk.order, 1)
    {
      hide Good, InPhase, Store.Consistent, Disk.Justified, Disk.Spared, Closed;
      ghost var before := disk.fs;
      o, i := OpenCurrent();
      if o.Ok? && disk.faultless && Current !in before.dir {
        StepOpened(before, disk.trimmed, disk.clock, old(disk.order), disk.accepted, fd, i, stamp, child);
      }
    }

    /** CHMODPREVIOUS: mark "previous" complete, then archive it or process it. */
    method MarkPrevious() returns (o: Outcome)
      requires rstate.ChmodPrevious? && Phase()
      modifies this`rstate, disk`fs
      ensures Phase()
      ensures LogsKept(old(disk.fs), disk.fs)
      ensures o.Ok? ==> rstate == (if processor then RunProcessor else FinishPrevious) && disk.fs.Executable(Previous)
      ensures !o.Ok? ==> rstate.ChmodPrevious?
      ensures disk.kernel.Flawless? ==> !o.Killed? && (disk.faultless ==> o.Ok?)
    {
      hide Disk.Justified, Disk.Spared, Closed;
      ghost var before := disk.fs;
      o := disk.Chmod(Previous, true);
      if o.Ok? {
        if disk.faultless {
          StepMark(before, disk.trimmed, disk.clock, disk.order, disk.accepted, fd, stamp, child);
        }
        rstate := if processor then RunProcessor else FinishPrevious;
      }
    }

    /** FINISHPREVIOUS */
    method ArchivePrevious() returns (o: Outcome)
      requires rstate.FinishPrevious? && Phase()
      modifies this`rstate, disk`fs, disk`trimmed, disk`faultless, disk`removals
      ensures !o.Killed? ==> Phase()
      ensures RotateFrame(old(disk.fs), old(disk.trimmed), old(disk.faultless))
      ensures o.Ok? ==> rstate.Writable?
      ensures o.Fail? ==> rstate.FinishPrevious?
      ensures disk.kernel.Flawless? ==> o.Ok?
      ensures !o.Killed? && disk.faultless ==>
              FinishEffect(old(disk.fs), disk.fs, Previous, Archive(stamp, Finished))
    {
      hide FinishResult, Overran, Calls.AllWork, TrimmedTo, Disk.Justified, Disk.Spared, Closed;
      ghost var before := disk.fs;
      var r, calls := Finish(Previous, Finished);
      if r.Died? {
        return Killed;
      }
      if disk.faultless {
        StepArchived(before, disk.fs, disk.trimmed, Archive(stamp, Finished), fd, stamp, child);
      }
      if r.value < 0 {
        return Fail;
      }
      rstate := Writable;
      o := Ok;
    }

    /** RUNPROCESSOR: fork; the child opens its files on its own. */
    method ForkProcessor() returns (o: Outcome)
      requires rstate.RunProcessor? && Phase()
      modifies this`rstate, this`pid, this`child
      ensures Phase()
      ensures o.Ok? ==> rstate.WaitProcessor? && pid != 0 && child.Forked?
      ensures !o.Ok? ==> rstate.RunProcessor? && pid == old(pid)
      ensures disk.kernel.Flawless? ==> o.Ok?
    {
      o := disk.Attempt();
      if o.Ok? {
        pid := disk.SomePid();
        child := Forked;
        rstate := WaitProcessor;
      }
    }

    /** SYNCPROCESSED: from here on recovery trusts "processed". */
    method SealProcessed() returns (o: Outcome)
      requires rstate.SyncProcessed? && Phase()
      modifies this`rstate, this`stamp, disk`fs, disk`clock
      ensures Phase() && RotateFrame(old(disk.fs), disk.trimmed, disk.faultless)
      ensures o.Ok? ==> rstate.SyncNewState?
      ensures !o.Ok? ==> rstate.SyncProcessed?
      ensures disk.kernel.Flawless? ==> !o.Killed? && (disk.faultless ==> o.Ok?)
    {
      hide Closed, Good, Disk.Justified, Disk.Spared;
      var i;
      o, i := disk.OpenAppend(Processed, Output(0, false));
      if !o.Ok? {
        return;
      }
      o := disk.Attempt();
      if o.Ok? {
        o := Seal(i);
      }
    }

    /** Its fchmod, right after the clock has been read. */
    method Seal(i: Ino) returns (o: Outcome)
      requires rstate.SyncProcessed? && Phase() && (disk.faultless ==> disk.fs.Links(Processed, i))
      modifies this`rstate, this`stamp, disk`fs, disk`clock
      ensures Phase() && RotateFrame(old(disk.fs), disk.trimmed, disk.faultless)
      ensures o.Ok? ==> rstate.SyncNewState?
      ensures !o.Ok? ==> rstate.SyncProcessed?
      ensures disk.kernel.Flawless? ==> !o.Killed? && (disk.faultless ==> o.Ok?)
    {
      hide Closed, Good, Disk.Justified, Disk.Spared;
      ghost var before, earlier := disk.fs, disk.clock;
      stamp := disk.Now();
      if disk.faultless {
        StepClock(before, disk.trimmed, earlier, disk.order, disk.accepted, stamp);
      }
      o := disk.FChmod(i, true);
      if o.Ok? {
        if disk.faultless {
          StepTrust(before, disk.trimmed, earlier, disk.order, disk.accepted, fd, stamp, child);
        }
        rstate := SyncNewState;
      }
    }

    /** SYNCNEWSTATE */
    method SyncState() returns (o: Outcome)
      requires rstate.SyncNewState? && Phase()
      modifies this`rstate, this`stamp, disk`fs, disk`clock
      ensures Phase() && RotateFrame(old(disk.fs), disk.trimmed, disk.faultless)
      ensures o.Ok? ==> rstate.UnlinkPrevious?
      ensures !o.Ok? ==> rstate.SyncNewState?
      ensures disk.kernel.Flawless? ==> o.Ok? && NewState in disk.fs.dir
    {
      hide Disk.Justified, Disk.Spared, Closed;
      var i;
      hide Good;
      ghost var before := disk.fs;
      o, i := disk.OpenAppend(NewState, Scratch);
      if !o.Ok? {
        return;
      }
      if disk.faultless && NewState !in before.dir {
        StepNewState(before, disk.trimmed, disk.clock, disk.order, disk.accepted, SyncNewState, fd, i, stamp, child);
      }
      o := disk.Attempt();
      if o.Ok? {
        ghost var earlier := disk.clock;
        stamp := disk.Now();
        if disk.faultless {
          StepClock(disk.fs, disk.trimmed, earlier, disk.order, disk.accepted, stamp);
        }
        rstate := UnlinkPrevious;
      }
    }

    /** UNLINKPREVIOUS */
    method DropPrevious() returns (o: Outcome)
      requires rstate.UnlinkPrevious? && Phase()
      modifies this`rstate, disk`fs
      ensures Phase() && RotateFrame(old(disk.fs), disk.trimmed, disk.faultless)
      ensures o.Ok? ==> rstate.RenameState?
      ensures !o.Ok? ==> rstate.UnlinkPrevious?
      ensures disk.kernel.Flawless? ==> o.Ok?
      ensures NewState in disk.fs.dir <==> NewState in old(disk.fs).dir
    {
      hide Disk.Justified, Disk.Spared, Closed;
      ghost var before := disk.fs;
      var missing;
      o, missing := disk.Unlink(Previous);
      if o.Ok? && disk.faultless {
        StepUnlinkPrevious(before, disk.trimmed, disk.clock, disk.order, disk.accepted, fd, stamp, child);
      }
      if missing {
        o := Ok;
      }
      if o.Ok? {
        rstate := RenameState;
      }
    }

    /** RENAMESTATE */
    method MoveState() returns (o: Outcome)
      requires rstate.RenameState? && Phase()
      modifies this`rstate, disk`fs
      ensures Phase() && RotateFrame(old(disk.fs), disk.trimmed, disk.faultless)
      ensures o.Ok? ==>
              rstate.FinishProcessed? && NewState in old(disk.fs).dir &&
              disk.fs.Links(State, old(disk.fs).dir[NewState]) && NewState !in disk.fs.dir
      ensures !o.Ok? ==> rstate.RenameState?
      ensures disk.kernel.Flawless? ==> (o.Ok? <==> NewState in old(disk.fs).dir) && !o.Killed?
    {
      hide Good, InPhase, Disk.Justified, Disk.Spared, Closed;
      ghost var before := disk.fs;
      o := disk.Rename(NewState, State);
      if o.Ok? {
        if disk.faultless {
          StepMoveState(before, disk.trimmed, disk.clock, disk.order, disk.accepted, fd, stamp, child);
        }
        rstate := FinishProcessed;
      }
    }

    /** FINISHPROCESSED */
    method ArchiveProcessed() returns (o: Outcome)
      requires rstate.FinishProcessed? && Phase()
      modifies this`rstate, disk`fs, disk`trimmed, disk`faultless, disk`removals
      ensures !o.Killed? ==> Phase()
      ensures RotateFrame(old(disk.fs), old(disk.trimmed), old(disk.faultless))
      ensures o.Ok? ==> rstate.Writable?
      ensures o.Fail? ==> rstate.FinishProcessed?
      ensures disk.kernel.Flawless? ==> o.Ok?
      ensures !o.Killed? && disk.faultless ==>
              FinishEffect(old(disk.fs), disk.fs, Processed, Archive(stamp, Finished))
    {
      hide FinishResult, Overran, Calls.AllWork, TrimmedTo, Disk.Justified, Disk.Spared, Closed;
      ghost var before := disk.fs;
      var r, calls := Finish(Processed, Finished);
      if r.Died? {
        return Killed;
      }
      if disk.faultless {
        StepProcessed(before, disk.fs, disk.trimmed, Archive(stamp, Finished), fd, stamp, child);
      }
      if r.value < 0 {
        return Fail;
      }
      rstate := Writable;
      o := Ok;
    }

    static function Stopped(o: Outcome): Ret {
      if o.Killed? then Died else Returned(0)
    }

    /** START to CHMODPREVIOUS, from whichever of them was reached before. */
    method OpenNext() returns (o: Outcome)
      requires Phase() && rstate in {Start, RenameCurrent, NewCurrent, ChmodPrevious}
      modifies this`rstate, this`stamp, this`fd, this`b, this`tidy, disk`fs, disk`clock, disk`order
      ensures Phase() && RotateFrame(old(disk.fs), disk.trimmed, disk.faultless)
      ensures o.Ok? ==> rstate == if processor then RunProcessor else FinishPrevious
      ensures !o.Ok? ==> rstate in {Start, RenameCurrent, NewCurrent, ChmodPrevious}
      ensures rstate.Unopened() ==> b == old(b) && fd == old(fd) && tidy == old(tidy) && old(rstate).Unopened()
      ensures !rstate.Unopened() && old(rstate).Unopened() ==> b == 0 && tidy && (disk.faultless ==> NewFile(old(fd)))
      ensures !old(rstate).Unopened() ==> b == old(b) && fd == old(fd) && tidy == old(tidy)
      ensures disk.kernel.Flawless? ==> !o.Killed? && (disk.faultless ==> o.Ok?)
      ensures old(disk.order).Grows(disk.order, 1)
    {
      hide Good, InPhase;
      o := Ok;
      if rstate.Start? {
        o := SyncCurrent();
        if !o.Ok? {
          return;
        }
      }
      if rstate.RenameCurrent? {
        o := MoveCurrent();
        if !o.Ok? {
          return;
        }
      }
      if rstate.NewCurrent? {
        o := SwitchCurrent();
        if !o.Ok? {
          return;
        }
        OpenIsLog();
      }
      o := MarkPrevious();
    }

    /** SYNCPROCESSED to FINISHPROCESSED. */
    method FinishProcessing() returns (o: Outcome)
      requires Phase() && rstate in {SyncProcessed, SyncNewState, UnlinkPrevious, RenameState, FinishProcessed}
      modifies this`rstate, this`stamp, disk`fs, disk`clock, disk`trimmed, disk`faultless, disk`removals
      ensures !o.Killed? ==> Phase()
      ensures RotateFrame(old(disk.fs), old(disk.trimmed), old(disk.faultless))
      ensures o.Ok? ==> rstate.Writable?
      ensures o.Fail? ==> rstate in {SyncProcessed, SyncNewState, UnlinkPrevious, RenameState, FinishProcessed}
      ensures disk.kernel.Flawless? ==> !o.Killed?
      ensures disk.kernel.Flawless? && disk.faultless && old(rstate) !in {UnlinkPrevious, RenameState} ==> o.Ok?
    {
      hide Good, InPhase;
      o := Ok;
      if rstate.SyncProcessed? {
        o := SealProcessed();
        if !o.Ok? {
          return;
        }
      }
      if rstate.SyncNewState? {
        o := SyncState();
        if !o.Ok? {
          return;
        }
      }
      if rstate.UnlinkPrevious? {
        o := DropPrevious();
        if !o.Ok? {
          return;
        }
      }
      if rstate.RenameState? {
        o := MoveState();
        if !o.Ok? {
          return;
        }
      }
      o := ArchiveProcessed();
    }

    /** rotator: a switch whose cases fall through; it returns 1 when the rotation
        is over and 0 when it has to be called again. */
    method Rotator() returns (r: Ret)
      requires Phase()
      modifies this`rstate, this`stamp, this`fd, this`b, this`tidy, this`pid, this`child, disk
      ensures disk.limits == old(disk.limits)
      ensures r.Returned? ==>
              Phase() && r.value in {0, 1} && (r.value == 1 <==> rstate.Writable?) && !rstate.EndFchmod? && !rstate.End?
      ensures RotateFrame(old(disk.fs), old(disk.trimmed), old(disk.faultless))
      ensures old(rstate) in {Writable, EndFchmod, End} ==> r.Died?
      ensures r.Returned? && rstate.Unopened() ==>
              b == old(b) && fd == old(fd) && tidy == old(tidy) && old(rstate).Unopened()
      ensures r.Returned? && !rstate.Unopened() && old(rstate).Unopened() ==>
              b == 0 && tidy && (disk.faultless ==> NewFile(old(fd)))
      ensures r.Returned? && !old(rstate).Unopened() ==> b == old(b) && fd == old(fd) && tidy == old(tidy)
      ensures old(disk.accepted) == disk.accepted
      ensures old(disk.order).Grows(disk.order, 1)
      ensures disk.kernel.Flawless? && old(rstate) !in {Writable, EndFchmod, End} ==> r.Returned?
      ensures disk.kernel.Flawless? && disk.faultless && r.Returned? && !processor ==> r.value == 1
      ensures r.Returned? &&
              old(rstate) in {SyncProcessed, SyncNewState, UnlinkPrevious, RenameState, FinishProcessed} ==>
              child == old(child) && pid == old(pid) && !rstate.WaitProcessor?
      ensures disk.kernel.Flawless? && disk.faultless && r.Returned? &&
              old(rstate) !in {UnlinkPrevious, RenameState} ==>
              r.value == 1 || rstate.WaitProcessor?
    {
      hide History.Grows, Closed, Good, InPhase, Disk.Safe, LogDir.Phase, Disk.Justified, Disk.Spared, Store.Linked;
      NoGrowth(disk.order);
      IdleSafe();
      var o;
      if rstate in {Start, RenameCurrent, NewCurrent, ChmodPrevious} {
        o := OpenNext();
        if !o.Ok? {
          return Stopped(o);
        }
      }
      if !rstate.End? {
        OpenIsLog();
      }
      r := RotateRest();
    }

    /** The cases of the switch from FINISHPREVIOUS on. */
    method RotateRest() returns (r: Ret)
      requires Phase() && !rstate.Unopened() && !rstate.ChmodPrevious?
      modifies this`rstate, this`stamp, this`pid, this`child, disk`fs, disk`clock, disk`trimmed, disk`faultless,
          disk`removals
      ensures r.Returned? ==>
              Phase() && r.value in {0, 1} && (r.value == 1 <==> rstate.Writable?) && !rstate.EndFchmod? && !rstate.End?
      ensures RotateFrame(old(disk.fs), old(disk.trimmed), old(disk.faultless))
      ensures old(rstate) in {Writable, EndFchmod, End} ==> r.Died?
      ensures r.Returned? ==> !rstate.Unopened()
      ensures disk.kernel.Flawless? && old(rstate) !in {Writable, EndFchmod, End} ==> r.Returned?
      ensures disk.kernel.Flawless? && disk.faultless && r.Returned? && !processor ==> r.value == 1
      ensures r.Returned? &&
              old(rstate) in {SyncProcessed, SyncNewState, UnlinkPrevious, RenameState, FinishProcessed} ==>
              child == old(child) && pid == old(pid) && !rstate.WaitProcessor?
      ensures disk.kernel.Flawless? && disk.faultless && r.Returned? &&
              old(rstate) !in {UnlinkPrevious, RenameState} ==>
              r.value == 1 || rstate.WaitProcessor?
    {
      hide Closed, Good, InPhase, Disk.Safe, LogDir.Phase, Disk.Justified, Disk.Spared, Store.Linked;
      IdleSafe();
      var o;
      if rstate.FinishPrevious? {
        OpenIsLog();
        o := ArchivePrevious();
        return if o.Ok? then Returned(1) else Stopped(o);
      }
      if rstate.RunProcessor? {
        o := ForkProcessor();
        return Stopped(o);
      }
      if rstate.WaitProcessor? {
        return Returned(0);
      }
      if rstate in {SyncProcessed, SyncNewState, UnlinkPrevious, RenameState, FinishProcessed} {
        o := FinishProcessing();
        return if o.Ok? then Returned(1) else Stopped(o);
      }
      // "inconsistent state": the process exits.
      return Died;
    }

    // ----- the processor child -----

    /** exec_processor: the child opens its four files, then runs; it exits 111
        when one of them cannot be opened. */
    method ProcessorOpens() returns (o: Outcome)
      requires Lines()
      requires Phase() && rstate.WaitProcessor? && child.Forked?
      modifies this`child, disk`fs
      ensures Phase() && Lines() && RotateFrame(old(disk.fs), disk.trimmed, disk.faultless)
      ensures o.Ok? ==> child.Running?
    {
      hide Good, InPhase;
      OpenIsLog();
      o := OpenOutput();
      if o.Ok? {
        var ignored := TruncNewState();
      }
    }

    method OpenOutput() returns (o: Outcome)
      requires Phase() && rstate.WaitProcessor? && child.Forked?
      modifies this`child, disk`fs
      ensures Phase() && RotateFrame(old(disk.fs), disk.trimmed, disk.faultless)
      ensures o.Ok? ==>
              child.Running? && Previous in old(disk.fs).dir && exists i :: disk.fs == OutputOpened(old(disk.fs), i)
      ensures !o.Ok? ==> child == old(child) && disk.fs == old(disk.fs)
    {
      hide Good, Disk.Justified, Disk.Spared, Closed;
      if Previous !in disk.fs.dir {
        return Fail;
      }
      ghost var before := disk.fs;
      var i;
      o, i := disk.OpenTrunc(Processed, Output(disk.fs.dir[Previous], false));
      if o.Ok? {
        assert disk.fs == OutputOpened(before, i);
        if disk.faultless {
          StepTrunc(before, disk.fs, disk.trimmed, disk.clock, disk.order, disk.accepted, fd, i, stamp);
        }
        child := Running;
      }
    }

    method TruncNewState() returns (o: Outcome)
      requires Phase() && rstate.WaitProcessor?
      modifies disk`fs
      ensures Phase() && RotateFrame(old(disk.fs), disk.trimmed, disk.faultless)
    {
      hide Good, InPhase, Disk.Justified, Disk.Spared, Closed;
      ghost var before := disk.fs;
      var i;
      o, i := disk.OpenTrunc(NewState, Scratch);
      if o.Ok? && disk.faultless {
        if NewState in before.dir {
          StepEmptyState(before, disk.trimmed, disk.clock, disk.order, disk.accepted, rstate, fd, stamp, child);
        } else {
          StepNewState(before, disk.trimmed, disk.clock, disk.order, disk.accepted, rstate, fd, i, stamp, child);
        }
      }
    }

    /** The processor's output grows. */
    method ProcessorWrites(s: seq<Byte>)
      requires Lines()
      requires Phase() && rstate.WaitProcessor? && child.Running?
      modifies disk`fs
      ensures Phase() && Lines() && RotateFrame(old(disk.fs), disk.trimmed, disk.faultless)
    {
      hide Good, Disk.Justified, Disk.Spared, Closed;
      OpenIsLog();
      if Processed in disk.fs.dir && Previous in disk.fs.dir {
        ghost var before := disk.fs;
        var i := disk.fs.dir[Processed];
        var k := Output(disk.fs.dir[Previous], false);
        if disk.fs.files[i].kind == k {
          disk.fs := disk.fs.Replace(i, k, disk.fs.files[i].data + s);
          if disk.faultless {
            StepOutput(before, disk.fs, disk.trimmed, disk.clock, disk.order, disk.accepted, fd, stamp,
                before.files[i].data + s);
          }
        }
      }
    }

    /** The main loop reads the clock whenever it wakes up. */
    method ReadClock()
      requires Phase() && Lines()
      modifies this`stamp, disk`clock
      ensures Phase() && Lines() && stamp == disk.clock
    {
      ghost var earlier := disk.clock;
      stamp := disk.Now();
      if disk.faultless {
        StepClock(disk.fs, disk.trimmed, earlier, disk.order, disk.accepted, stamp);
      }
    }

    /** processor_died, called when the child is reaped; a crash counts as failure. */
    method ProcessorDied(success: bool) returns (r: Ret)
      requires Lines()
      requires Phase() && rstate.WaitProcessor? && (success ==> child.Running?)
      modifies this`rstate, this`stamp, this`fd, this`b, this`tidy, this`pid, this`child, disk
      ensures disk.limits == old(disk.limits)
      ensures r.Returned? ==> Phase() && Lines() && child.NoChild? && !rstate.WaitProcessor? && pid == 0
      ensures r.Returned? && !success ==> rstate.RunProcessor?
      ensures disk.kernel.Flawless? && disk.faultless && success ==> rstate.Writable?
      ensures RotateFrame(old(disk.fs), old(disk.trimmed), old(disk.faultless))
      ensures r.Returned? ==> b == old(b) && fd == old(fd) && tidy == old(tidy) && !rstate.Unopened()
      ensures old(disk.accepted) == disk.accepted
      ensures old(disk.order).Grows(disk.order, 1)
      ensures disk.kernel.Flawless? ==> r.Returned?
    {
      hide Good, InPhase, Disk.Justified, Disk.Spared, Closed;
      OpenIsLog();
      pid := 0;
      if !success {
        if disk.faultless {
          RunPhase();
        }
        rstate := RunProcessor;
        child := NoChild;
        return Returned(0);
      }
      OutputWhole();
      OpenIsLog();
      r := Rotator();
    }

    /** The child has exited 0: what it has written is whole. */
    method OutputWhole()
      requires Phase() && Lines() && rstate.WaitProcessor? && child.Running?
      modifies this`rstate, this`child, disk`fs
      ensures Phase() && Lines() && rstate.SyncProcessed? && child.NoChild?
      ensures RotateFrame(old(disk.fs), disk.trimmed, disk.faultless)
    {
      hide Good, Disk.Justified, Disk.Spared, Closed;
      OpenIsLog();
      if Processed in disk.fs.dir && Previous in disk.fs.dir {
        ghost var before := disk.fs;
        var i := disk.fs.dir[Processed];
        disk.fs := disk.fs.Replace(i, Output(disk.fs.dir[Previous], true), disk.fs.files[i].data);
        if disk.faultless {
          StepWhole(before, disk.fs, disk.trimmed, disk.clock, disk.order, disk.accepted, fd, stamp);
        }
      }
      child := NoChild;
      rstate := SyncProcessed;
    }

    // ----- writing -----

    /** b counts the bytes of a file that this process has filled from empty. */
    ghost predicate Counted()
      reads this, disk
    {
      && (disk.faultless ==> fd in disk.fs.files && b <= |disk.fs.files[fd].data|)
      && (tidy && disk.faultless ==> b == |disk.fs.files[fd].data| <= size)
    }

    /** Such a file has no newline close to the size limit, unless it is being rotated. */
    ghost predicate Lines()
      reads this, disk
    {
      && Counted()
      && (tidy && disk.faultless && !rstate.Unopened() ==> NoLateNewline(disk.fs.files[fd].data, size, tolerance))
    }

    /** Rotator, as the writer and the signal handler call it. */
    method Rotate() returns (r: Ret)
      requires Phase() && Lines()
      modifies this`rstate, this`stamp, this`fd, this`b, this`tidy, this`pid, this`child, disk
      ensures disk.limits == old(disk.limits)
      ensures r.Returned? ==>
              Phase() && Lines() && r.value in {0, 1} && (r.value == 1 <==> rstate.Writable?) &&
              !rstate.EndFchmod? && !rstate.End?
      ensures r.Returned? && old(rstate).Unopened() && !rstate.Unopened() ==>
              b == 0 && (disk.faultless ==> NewFile(old(fd)))
      ensures r.Returned? && !(old(rstate).Unopened() && !rstate.Unopened()) ==> b == old(b)
      ensures disk.Safe() && old(disk.trimmed) <= disk.trimmed && disk.accepted == old(disk.accepted)
      ensures disk.faultless ==> old(disk.faultless)
      ensures old(disk.order).Grows(disk.order, 1)
      ensures disk.kernel.Flawless? && old(rstate) !in {Writable, EndFchmod, End} ==> r.Returned?
      ensures disk.kernel.Flawless? && disk.faultless && r.Returned? && !processor ==> r.value == 1
      ensures disk.kernel.Flawless? && disk.faultless && r.Returned? &&
              old(rstate) !in {UnlinkPrevious, RenameState} ==>
              r.value == 1 || rstate.WaitProcessor?
    {
      hide Good, InPhase;
      if !rstate.End? {
        OpenIsLog();
      }
      r := Rotator();
    }

    /** A file that is full has a reason to end. */
    lemma FullIsClosed()
      requires Phase() && Counted()
      ensures disk.faultless && b >= size ==> Closed(disk.fs, disk.order, fd)
    {
      if disk.faultless && b >= size {
        ShapeCloses(disk.fs, disk.order, fd, size, tolerance);
      }
    }

    /** A rotation is due. */
    method Begin()
      requires Phase() && Counted() && rstate.Writable?
      requires disk.faultless ==> Closed(disk.fs, disk.order, fd)
      modifies this`rstate
      ensures Phase() && Lines() && rstate.Start?
    {
      rstate := Start;
    }

    /** logdir_write, which the buffer calls with what it holds. */
    method LogdirWrite(s: seq<Byte>) returns (r: Ret, ghost took: nat)
      requires s != [] && 0 < size && Phase() && Lines() && rstate !in {EndFchmod, End}
      modifies this`rstate, this`stamp, this`fd, this`b, this`tidy, this`pid, this`child, disk
      ensures disk.limits == old(disk.limits)
      ensures r.Returned? ==> Phase() && rstate !in {EndFchmod, End}
      ensures took <= |s| && disk.accepted == old(disk.accepted) + s[..took]
      ensures r.Returned? ==> took == if r.value > 0 then r.value else 0
      ensures disk.Safe() && old(disk.trimmed) <= disk.trimmed
      ensures r.Returned? ==> Lines()
      ensures r.Returned? && FitsWord(s, size, tolerance) && old(b) <= size ==> b <= size
      ensures old(disk.order).Grows(disk.order, 3)
      ensures disk.kernel.Flawless? ==> r.Returned?
      ensures disk.kernel.Flawless? && disk.faultless && !processor ==> took > 0 && rstate.Writable?
      ensures disk.kernel.Flawless? && disk.faultless && old(rstate).RunProcessor? ==> took > 0 || rstate.WaitProcessor?
      ensures disk.faultless ==> old(disk.faultless)
      ensures r.Returned? && old(rstate).Writable? && old(b) < size ==>
              Continues(s, took, old(b), old(fd), old(disk.order))
      ensures r.Returned? && old(rstate).Writable? && old(b) >= size && took > 0 && disk.faultless ==>
              |disk.order.gens| > |old(disk.order).gens|
    {
      hide Good, InPhase, Closed;
      took := 0;
      assert s[..0] == [];
      if !rstate.Writable? {
        var q := Rotate();
        if q.Died? {
          return Died, 0;
        }
        if q.value == 0 {
          return Returned(-1), 0;
        }
      }
      if b >= size {
        var q := RotateFull();
        if q.Died? {
          return Died, 0;
        }
        if q.value == 0 {
          return Returned(-1), 0;
        }
      }
      r, took := WriteChunk(s);
    }

    /** A file that is full makes room for a new one. */
    method RotateFull() returns (r: Ret)
      requires Phase() && Lines() && rstate.Writable? && b >= size
      modifies this`rstate, this`stamp, this`fd, this`b, this`tidy, this`pid, this`child, disk
      ensures disk.limits == old(disk.limits)
      ensures r.Returned? ==>
              Phase() && Lines() && r.value in {0, 1} && (r.value == 1 <==> rstate.Writable?) &&
              !rstate.EndFchmod? && !rstate.End?
      ensures (r == Returned(0) ==> b == old(b) || b == 0) && (r == Returned(1) ==> b == 0)
      ensures r == Returned(1) ==> (disk.faultless ==> |disk.order.gens| > |old(disk.order).gens|)
      ensures disk.Safe() && old(disk.trimmed) <= disk.trimmed && disk.accepted == old(disk.accepted)
      ensures (disk.faultless ==> old(disk.faultless)) && old(disk.order).Grows(disk.order, 1)
      ensures disk.kernel.Flawless? ==> r.Returned?
      ensures disk.kernel.Flawless? && disk.faultless && r.Returned? ==> r.value == 1 || rstate.WaitProcessor?
      ensures disk.kernel.Flawless? && disk.faultless && r.Returned? && !processor ==> r.value == 1
    {
      hide Good, InPhase, Closed, LogDir.Phase, LogDir.Lines, Disk.Safe;
      LinesCount();
      FullIsClosed();
      OpenIsLast();
      Begin();
      r := Rotate();
      if r == Returned(1) {
        OpenIsLast();
      }
    }

    lemma LinesCount()
      requires Lines()
      ensures Counted()
    {
    }

    /** The file that is written is the last generation. */
    lemma OpenIsLast()
      requires Phase() && rstate.Writable?
      ensures disk.faultless ==> disk.order.gens != [] && disk.order.gens[|disk.order.gens| - 1] == fd
    {
    }

    /** What becomes of the open file when some bytes are written while it has room: it is
        left for a new one exactly after a newline near enough to its limit. */
    ghost predicate Continues(s: seq<Byte>, took: nat, before: nat, was: Ino, order: History)
      requires took <= |s|
      reads this, disk
    {
      var after := (before + took) % UINT_WRAP;
      if took > 0 && (after + tolerance) % UINT_WRAP >= size && s[took - 1] == NEWLINE
      then rstate.Writable? ==> b == 0 && (disk.faultless ==> fd != was)
      else rstate.Writable? && fd == was && b == (if took > 0 then after else before) && disk.order == order
    }

    method WriteChunk(s: seq<Byte>) returns (r: Ret, ghost took: nat)
      requires s != [] && b < size && Phase() && Lines() && rstate.Writable?
      modifies this`rstate, this`stamp, this`fd, this`b, this`tidy, this`pid, this`child, disk
      ensures disk.limits == old(disk.limits)
      ensures r.Returned? ==> Phase() && rstate !in {EndFchmod, End}
      ensures took <= |s| && disk.accepted == old(disk.accepted) + s[..took]
      ensures r.Returned? ==> took == if r.value > 0 then r.value else 0
      ensures disk.Safe() && old(disk.trimmed) <= disk.trimmed
      ensures r.Returned? ==> Lines()
      ensures r.Returned? && FitsWord(s, size, tolerance) ==> b <= size
      ensures old(disk.order).Grows(disk.order, 1)
      ensures disk.kernel.Flawless? ==> r.Returned?
      ensures disk.kernel.Flawless? && disk.faultless && !processor ==> took > 0 && rstate.Writable?
      ensures disk.faultless ==> old(disk.faultless)
      ensures r.Returned? ==> Continues(s, took, old(b), old(fd), old(disk.order))
      ensures disk.kernel.Flawless? && disk.faultless ==> took == Chunk(s, old(b), size, tolerance)
    {
      hide Good, InPhase, Closed, Chunk;
      took := 0;
      assert s[..0] == [];
      var o, k := WriteSome(s);
      if !o.Ok? {
        return if o.Killed? then Died else Returned(-1), 0;
      }
      took := k;
      if (b + tolerance) % UINT_WRAP >= size && s[k - 1] == NEWLINE {
        var q := RotateAfterNewline();
        if q.Died? {
          return Died, took;
        }
      }
      return Returned(k), took;
    }

    method RotateAfterNewline() returns (r: Ret)
      requires Phase() && rstate.Writable? && (disk.faultless ==> Closed(disk.fs, disk.order, fd))
      modifies this`rstate, this`stamp, this`fd, this`b, this`tidy, this`pid, this`child, disk
      ensures disk.limits == old(disk.limits)
      ensures r.Returned? ==> Phase() && rstate !in {EndFchmod, End}
      ensures r.Returned? && old(Counted()) ==> Lines()
      ensures r.Returned? ==> b <= old(b) && (rstate.Writable? ==> b == 0 && (disk.faultless ==> fd != old(fd)))
      ensures disk.Safe() && old(disk.trimmed) <= disk.trimmed && disk.accepted == old(disk.accepted)
      ensures old(disk.order).Grows(disk.order, 1)
      ensures disk.kernel.Flawless? ==> r.Returned?
      ensures disk.kernel.Flawless? && disk.faultless && !processor ==> rstate.Writable?
      ensures disk.faultless ==> old(disk.faultless)
    {
      hide Good, InPhase;
      if disk.faultless {
        StartPhase();
      }
      rstate := Start;
      OpenIsLog();
      r := Rotator();
    }

    /** handle_signals, for SIGALRM: a file that is not empty is rotated. */
    method HandleAlarm() returns (r: Ret)
      requires Phase() && Lines() && 0 < size
      modifies this`rstate, this`stamp, this`fd, this`b, this`tidy, this`pid, this`child, disk
      ensures !(old(rstate).Writable? && old(b) != 0) ==>
              r.Returned? && rstate == old(rstate) && b == old(b) && fd == old(fd) && unchanged(disk)
      ensures r.Returned? ==> Phase() && Lines() && (old(rstate).Writable? ==> !rstate.EndFchmod? && !rstate.End?)
      ensures r.Returned? && old(rstate).Writable? && old(b) != 0 && rstate.Writable? ==>
              b == 0 && (disk.faultless ==> NewFile(old(fd)))
      ensures old(disk.order).Follows(
                disk.order, 1, {}, if old(rstate).Writable? && old(b) != 0 then {old(fd)} else {})
      ensures disk.Safe() && old(disk.trimmed) <= disk.trimmed && disk.accepted == old(disk.accepted)
      ensures disk.limits == old(disk.limits) && (disk.faultless ==> old(disk.faultless))
      ensures disk.kernel.Flawless? ==> r.Returned?
      ensures disk.kernel.Flawless? && disk.faultless && old(rstate).Writable? && !processor ==> rstate.Writable?
    {
      hide Good, InPhase;
      r := Returned(0);
      if rstate.Writable? && b != 0 {
        disk.Cut(fd);
        Begin();
        r := Rotate();
      }
    }

    /** What the processor has not finished is run again. */
    lemma RunPhase()
      requires disk.faultless && InPhase(WaitProcessor, disk.fs, fd, stamp, child)
      ensures InPhase(RunProcessor, disk.fs, fd, stamp, NoChild)
    {
    }

    /** WRITABLE and START are the same to the directory. */
    lemma StartPhase()
      requires disk.faultless && InPhase(Writable, disk.fs, fd, stamp, child)
      ensures InPhase(Start, disk.fs, fd, stamp, child)
    {
    }

    /** fd_write: any part of what it is given may be written. */
    method WriteSome(s: seq<Byte>) returns (o: Outcome, k: nat)
      requires s != [] && b < size && Phase() && Lines() && rstate.Writable?
      modifies this`b, this`tidy, disk`fs, disk`accepted
      ensures Phase()
      ensures o.Ok? ==> 1 <= k <= |s| && disk.accepted == old(disk.accepted) + s[..k]
      ensures o.Ok? ==> Counted()
      ensures o.Ok? && FitsWord(s, size, tolerance) ==> b == old(b) + k <= size
      ensures o.Ok? ==> b == (old(b) + k) % UINT_WRAP && k <= Chunk(s, old(b), size, tolerance)
      ensures o.Ok? && disk.kernel.Flawless? ==> k == Chunk(s, old(b), size, tolerance)
      ensures o.Ok? && disk.faultless && (b + tolerance) % UINT_WRAP >= size && s[k - 1] == NEWLINE ==>
              Closed(disk.fs, disk.order, fd)
      ensures o.Ok? && ((b + tolerance) % UINT_WRAP < size || s[k - 1] != NEWLINE) ==> Lines()
      ensures !o.Ok? ==> disk.accepted == old(disk.accepted) && Lines() && b == old(b)
      ensures disk.kernel.Flawless? ==> !o.Killed? && (disk.faultless ==> o.Ok?)
    {
      hide Good, InPhase, NoLateNewline, Chunk, Closed, Disk.Justified, Disk.Spared;
      OpenIsLog();
      var n := Chunk(s, b, size, tolerance);
      o := disk.Attempt();
      k := 0;
      if o.Ok? && fd !in disk.fs.files {
        o := Fail;
      }
      if !o.Ok? {
        return;
      }
      ghost var before := disk.fs;
      assert 1 <= 1 <= n;
      k := n;
      if !disk.kernel.Flawless? {
        k :| 1 <= k <= n;
      }
      Append(s[..k]);
      Count(s, k, n, before);
    }

    /** The bytes reach the open file. */
    method Append(data: seq<Byte>)
      requires Phase() && rstate.Writable? && fd in disk.fs.files
      modifies disk`fs, disk`accepted
      ensures Phase() && disk.fs == old(disk.fs).Append(fd, data) && disk.accepted == old(disk.accepted) + data
    {
      hide Disk.Justified, Disk.Spared, Closed;
      ghost var before := disk.fs;
      disk.fs := disk.fs.Append(fd, data);
      if disk.faultless {
        StepWrite(before, disk.trimmed, disk.clock, disk.order, disk.accepted, fd, stamp, child, data);
      }
      disk.accepted := disk.accepted + data;
    }

    /** ldp->b += r */
    method Count(s: seq<Byte>, k: nat, ghost n: nat, ghost before: Store)
      requires Phase() && rstate.Writable? && b < size && s != [] && n == Chunk(s, b, size, tolerance) && 1 <= k <= n
      requires fd in before.files && disk.fs == before.Append(fd, s[..k])
      requires disk.faultless ==> b <= |before.files[fd].data|
      requires tidy && disk.faultless ==>
              b == |before.files[fd].data| && NoLateNewline(before.files[fd].data, size, tolerance)
      modifies this`b, this`tidy
      ensures Phase() && Counted() && b == (old(b) + k) % UINT_WRAP
      ensures FitsWord(s, size, tolerance) ==> b == old(b) + k <= size
      ensures (b + tolerance) % UINT_WRAP < size || s[k - 1] != NEWLINE ==> Lines()
      ensures disk.faultless && (b + tolerance) % UINT_WRAP >= size && s[k - 1] == NEWLINE ==>
              Closed(disk.fs, disk.order, fd)
    {
      hide Good, InPhase, NoLateNewline, Chunk, Filled, Closed, FitsWord, Disk.Justified, Disk.Spared;
      ghost var data := before.files[fd].data;
      assert disk.fs.files[fd].data == data + s[..k];
      if disk.faultless {
        CountStep(data, s, k, b, size, tolerance);
      }
      CountFits(s, k, b, size, tolerance);
      b := (b + k) % UINT_WRAP;
      tidy := tidy && k == n && FitsWord(s, size, tolerance);
      if disk.faultless && (b + tolerance) % UINT_WRAP >= size && s[k - 1] == NEWLINE {
        ShapeCloses(disk.fs, disk.order, fd, size, tolerance);
      }
    }

    // ----- starting and stopping -----

    /** unlink(2) whose result is not looked at, on a name that recovery ignores. */
    method Discard(n: Name) returns (o: Outcome)
      requires disk.Safe() && n in {State, NewState, Processed}
      requires disk.faultless && n == Processed ==> Unprocessed(disk.fs)
      modifies disk`fs
      ensures disk.Safe()
      ensures disk.faultless ==> Discarded(old(disk.fs), disk.fs, n)
      ensures disk.kernel.Flawless? ==> !o.Killed?
    {
      ghost var before := disk.fs;
      var missing;
      o, missing := disk.Unlink(n);
      if o.Ok? && disk.faultless {
        StepDiscard(before, disk.trimmed, disk.clock, disk.order, disk.accepted, n);
      }
    }

    /** logdir_init up to the archiving of "current": what was being rotated goes
        to the archives, processed if recovery can trust the processed form. */
    method RecoverPrevious() returns (r: Ret, ghost met: Store, ghost calls: Calls)
      requires MayRecover() && (disk.faultless ==> !disk.fs.Executable(Current))
      modifies disk`fs, disk`trimmed, disk`faultless, disk`removals
      ensures disk.Safe() && old(disk.trimmed) <= disk.trimmed && (disk.faultless ==> old(disk.faultless))
      ensures r.Returned? && disk.faultless ==> Recovered(old(disk.fs))
      ensures r.Returned? && disk.faultless ==> Recovers(old(disk.fs), met, disk.fs, stamp, calls, limit, maxDirSize)
      ensures disk.kernel.Flawless? ==> r.Returned? && r.value >= 0 && calls.AllWork()
    {
      hide Good, FinishResult, Disk.Safe;
      met, calls := disk.fs, Calls(true, true, true, true, {}, {});
      var o := DiscardStates();
      if o.Killed? {
        return Died, met, calls;
      }
      o := disk.Attempt();
      if !o.Ok? {
        return Died, met, calls;
      }
      if disk.fs.Executable(Processed) {
        r, met, calls := RecoverProcessed();
      } else {
        r, met, calls := RecoverRaw();
      }
      if r.Returned? && r.value < 0 {
        r := Died;
      }
    }

    method DiscardStates() returns (o: Outcome)
      requires MayRecover() && (disk.faultless ==> !disk.fs.Executable(Current))
      modifies disk`fs
      ensures MayRecover()
      ensures disk.faultless ==> Without(old(disk.fs), disk.fs, {State, NewState})
      ensures disk.kernel.Flawless? ==> !o.Killed?
    {
      hide Good;
      o := Discard(State);
      if !o.Killed? {
        o := Discard(NewState);
      }
    }

    /** Without a trusted "processed", "previous" is archived as it is. */
    method RecoverRaw() returns (r: Ret, ghost met: Store, ghost calls: Calls)
      requires MayRecover() && (disk.faultless ==> !disk.fs.Executable(Current)) && !disk.fs.Executable(Processed)
      modifies disk`fs, disk`trimmed, disk`faultless, disk`removals
      ensures disk.Safe() && old(disk.trimmed) <= disk.trimmed && (disk.faultless ==> old(disk.faultless))
      ensures r.Returned? && disk.faultless ==> Recovered(old(disk.fs))
      ensures r.Returned? && disk.faultless ==>
                && Without(old(disk.fs), met, {Processed})
                && FinishResult(met, disk.fs, Previous, Archive(stamp, Unfinished), calls, limit, maxDirSize)
      ensures disk.kernel.Flawless? ==> r.Returned? && r.value >= 0 && calls.AllWork()
    {
      hide Good, FinishResult;
      met, calls := disk.fs, Calls(true, true, true, true, {}, {});
      var o := Discard(Processed);
      if o.Killed? {
        return Died, met, calls;
      }
      met := disk.fs;
      r, calls := Finish(Previous, Unfinished);
    }

    /** Only "current" may still be waiting for its archive. */
    ghost predicate Recovered(before: Store)
      reads disk
    {
      && Previous !in disk.fs.dir && Unprocessed(disk.fs) && !disk.fs.Executable(Current)
      && (Current in disk.fs.dir <==> Current in before.dir)
      && (Current in disk.fs.dir ==> disk.fs.dir[Current] == before.dir[Current])
      && disk.fs.files == before.files
    }

    /** logdir_init has read the clock. */
    ghost predicate MayRecover()
      reads this, disk
    {
      disk.Safe() && (limit, maxDirSize) in disk.limits &&
          (disk.faultless ==> stamp <= disk.clock && Passed(disk.fs, stamp))
    }

    /** A trusted "processed" replaces "previous". */
    method RecoverProcessed() returns (r: Ret, ghost met: Store, ghost calls: Calls)
      requires MayRecover() && (disk.faultless ==> !disk.fs.Executable(Current)) && disk.fs.Executable(Processed)
      modifies disk`fs, disk`trimmed, disk`faultless, disk`removals
      ensures disk.Safe() && old(disk.trimmed) <= disk.trimmed && (disk.faultless ==> old(disk.faultless))
      ensures r.Returned? && disk.faultless ==> Recovered(old(disk.fs)) && Processed !in disk.fs.dir
      ensures r.Returned? && disk.faultless ==>
                met == old(disk.fs).Unlink(Previous) &&
                    FinishResult(met, disk.fs, Processed, Archive(stamp, Finished), calls, limit, maxDirSize)
      ensures disk.kernel.Flawless? ==> r.Returned? && r.value >= 0 && calls.AllWork()
    {
      hide Good, FinishResult;
      met, calls := disk.fs, Calls(true, true, true, true, {}, {});
      ghost var before := disk.fs;
      var o, missing := disk.Unlink(Previous);
      if o.Killed? {
        return Died, met, calls;
      }
      if o.Ok? && disk.faultless {
        StepForget(before, disk.trimmed, disk.clock, disk.order, disk.accepted);
      }
      if o.Fail? && !missing {
        disk.IgnoreFault();
      }
      if missing {
        assert before.dir - {Previous} == before.dir;
      }
      met := disk.fs;
      r, calls := Finish(Processed, Finished);
    }

    /** The archiving of "current".  When "previous" has just been archived under
        the same timestamp, link(2) fails, finish returns 0, and the old "current"
        goes on being written. */
    method RecoverCurrent() returns (r: Ret, ghost calls: Calls)
      requires disk.Safe() && (limit, maxDirSize) in disk.limits
      requires disk.faultless ==>
              stamp <= disk.clock && Previous !in disk.fs.dir && Unprocessed(disk.fs) && !disk.fs.Executable(Current)
      requires disk.faultless && Current in disk.fs.dir ==> disk.fs.dir[Current] in disk.order.cut
      modifies disk`fs, disk`trimmed, disk`faultless, disk`removals
      ensures disk.Safe() && old(disk.trimmed) <= disk.trimmed && (disk.faultless ==> old(disk.faultless))
      ensures r.Returned? && disk.faultless ==>
                && Previous !in disk.fs.dir && Unprocessed(disk.fs) && !disk.fs.Executable(Current)
                && (Current in disk.fs.dir ==>
                    disk.fs.Links(Current, disk.fs.dir[Current]) && !disk.fs.Archived(disk.fs.dir[Current]))
                && (Current in disk.fs.dir ==>
                    Current in old(disk.fs).dir && disk.fs.dir[Current] == old(disk.fs).dir[Current])
      ensures r.Returned? && disk.faultless && calls.AllWork() ==>
                (Current in disk.fs.dir <==>
                 Current in old(disk.fs).dir && old(disk.fs).LinkCount(Current) == 1 &&
                     Archive(stamp, Unfinished) in old(disk.fs).dir)
      ensures disk.fs.files.Keys >= old(disk.fs).files.Keys && (disk.faultless ==> LogsKept(old(disk.fs), disk.fs))
      ensures disk.kernel.Flawless? ==> r.Returned? && calls.AllWork()
    {
      hide Good, TrimmedTo;
      r, calls := Finish(Current, Unfinished);
      if r.Died? || r.value < 0 {
        return Died, calls;
      }
      ghost var before := disk.fs;
      var o, i := disk.OpenTrunc(State, Scratch);
      if !o.Ok? {
        return Died, calls;
      }
      if disk.faultless {
        StepFreshState(before, disk.fs, disk.trimmed, disk.clock, disk.order, disk.accepted, i);
      }
      r := Returned(1);
    }

    /** logdir_init when "current" was not closed cleanly, up to opening it. */
    method Recover() returns (r: Ret, ghost first: Calls, ghost second: Calls)
      requires MayRecover() && !disk.fs.Executable(Current)
      modifies disk`fs, disk`trimmed, disk`faultless, disk`removals, disk`order
      ensures disk.Safe() && old(disk.trimmed) <= disk.trimmed && (disk.faultless ==> old(disk.faultless))
      ensures r.Returned? && disk.faultless ==>
                && Previous !in disk.fs.dir && Unprocessed(disk.fs)
                && (Current in disk.fs.dir ==> !disk.fs.Archived(disk.fs.dir[Current]))
                && (Current in disk.fs.dir ==> old(disk.fs).Links(Current, disk.fs.dir[Current]))
      ensures r.Returned? && disk.faultless ==> LogsKept(old(disk.fs), disk.fs)
      ensures r.Returned? && disk.faultless && Current in old(disk.fs).dir ==>
              old(disk.fs).dir[Current] in disk.fs.files
      ensures r.Returned? && disk.faultless && first.AllWork() && second.AllWork()
              && Current in old(disk.fs).dir ==>
                (Current in disk.fs.dir <==>
                 Full(old(disk.fs)) && Unprocessed(old(disk.fs)) &&
                     Survives(old(disk.fs), SizeOf(old(disk.fs), Previous), limit, maxDirSize))
      ensures disk.kernel.Flawless? ==> r.Returned? && first.AllWork() && second.AllWork()
      ensures disk.order == old(disk.order).(cut := old(disk.order).cut + Interrupted(old(disk.fs)))
    {
      hide Good, FinishResult, TrimmedTo, Recovers, Disk.Justified, Disk.Spared, Closed;
      second := Calls(true, true, true, true, {}, {});
      ghost var start, met := disk.fs, disk.fs;
      if Current in disk.fs.dir {
        disk.Cut(disk.fs.dir[Current]);
      }
      r, met, first := RecoverPrevious();
      if r.Died? {
        return;
      }
      ghost var recovered := disk.fs;
      r, second := RecoverCurrent();
      if disk.faultless && r.Returned? && first.AllWork() && Current in start.dir {
        GoodConsistent(start, old(disk.trimmed), disk.clock, disk.order, disk.accepted);
        CurrentTaken(start, met, recovered, old(disk.trimmed), stamp, first, limit, maxDirSize);
      }
    }

    /** logdir_init up to opening "current": recovery, unless it was closed cleanly. */
    method Prepare() returns (r: Ret, stSize: nat, ghost first: Calls, ghost second: Calls)
      requires MayRecover()
      modifies disk`fs, disk`trimmed, disk`faultless, disk`removals, disk`order
      ensures disk.Safe() && old(disk.trimmed) <= disk.trimmed && (disk.faultless ==> old(disk.faultless))
      ensures r.Returned? && disk.faultless ==>
                && Previous !in disk.fs.dir && Unprocessed(disk.fs)
                && (Current in disk.fs.dir ==> !disk.fs.Archived(disk.fs.dir[Current]))
                && (Current in disk.fs.dir ==> old(disk.fs).Links(Current, disk.fs.dir[Current]))
      ensures old(disk.fs).Executable(Current) ==>
              r.Returned? && disk.fs == old(disk.fs) && stSize == |disk.fs.files[disk.fs.dir[Current]].data|
      ensures !old(disk.fs).Executable(Current) ==> stSize == 0
      ensures r.Returned? && disk.faultless && first.AllWork() && second.AllWork() && !old(disk.fs).Executable(Current)
              && Current in old(disk.fs).dir ==>
                (Current in disk.fs.dir <==>
                 Full(old(disk.fs)) && Unprocessed(old(disk.fs)) &&
                     Survives(old(disk.fs), SizeOf(old(disk.fs), Previous), limit, maxDirSize))
      ensures r.Returned? && disk.faultless && Current in old(disk.fs).dir ==>
              old(disk.fs).dir[Current] in disk.fs.files
      ensures disk.kernel.Flawless? ==> r.Returned? && first.AllWork() && second.AllWork()
      ensures old(disk.order).Follows(disk.order, 0, {}, Interrupted(old(disk.fs)))
    {
      hide Good, Disk.Justified, Disk.Spared, Closed, Full, Survives;
      first, second := Calls(true, true, true, true, {}, {}), Calls(true, true, true, true, {}, {});
      stSize := 0;
      r := Returned(1);
      if disk.fs.Executable(Current) {
        stSize := |disk.fs.files[disk.fs.dir[Current]].data|;
        if disk.faultless {
          ExecutableCurrent(disk.fs, disk.trimmed, disk.clock, disk.order, disk.accepted);
        }
      } else {
        r, first, second := Recover();
      }
    }

    /** logdir_init.  It normally archives an interrupted "current" and starts a new one;
        the last clause says exactly when the old one goes on being written instead, its
        bytes uncounted, although every call has worked. */
    method Init() returns (r: Ret, ghost first: Calls, ghost second: Calls)
      requires disk.Safe() && (limit, maxDirSize) in disk.limits && (size, tolerance) in disk.order.shapes
      modifies this, disk
      ensures disk.limits == old(disk.limits)
      ensures disk.Safe() && old(disk.trimmed) <= disk.trimmed && disk.accepted == old(disk.accepted)
      ensures r.Returned? ==> Phase() && Lines() && rstate.Writable? && child.NoChild?
      ensures r.Returned? && disk.faultless && old(disk.fs).Executable(Current) ==>
                fd == old(disk.fs).dir[Current] && b == |old(disk.fs).files[fd].data| % UINT_WRAP
      ensures r.Returned? && disk.faultless && !old(disk.fs).Executable(Current) ==>
                b == 0 && (old(disk.fs).Links(Current, fd) || disk.fs.files[fd].data == [])
      ensures r.Returned? && disk.faultless && first.AllWork() && second.AllWork() && !old(disk.fs).Executable(Current)
              && Current in old(disk.fs).dir ==>
                (old(disk.fs).Links(Current, fd) <==>
                 Full(old(disk.fs)) && Unprocessed(old(disk.fs)) &&
                     Survives(old(disk.fs), SizeOf(old(disk.fs), Previous), limit, maxDirSize))
      ensures old(disk.order).Follows(disk.order, 1, {}, Interrupted(old(disk.fs)))
      ensures disk.kernel.Flawless? ==> r.Returned? && first.AllWork() && second.AllWork()
      ensures disk.faultless ==> old(disk.faultless)
    {
      hide Good, InPhase, Disk.Safe, Closed, Full, Survives, Interrupted, LogDir.Phase, History.Follows, History.Grows;
      NoGrowth(disk.order);
      first, second := Calls(true, true, true, true, {}, {}), Calls(true, true, true, true, {}, {});
      rstate, pid, child, tidy := Writable, 0, NoChild, false;
      stamp := FirstClock();
      var o := disk.Attempt();
      if !o.Ok? {
        return Died, first, second;
      }
      ghost var order := disk.order;
      var stSize;
      r, stSize, first, second := Prepare();
      FollowsOn(order, disk.order, Interrupted(old(disk.fs)));
      if r.Died? {
        return;
      }
      o := OpenLog();
      if !o.Ok? {
        return Died, first, second;
      }
      CountFrom(stSize);
      r := Returned(1);
    }

    /** ap->b = st.st_size */
    method CountFrom(stSize: nat)
      requires Phase()
      modifies this`b
      ensures Phase() && b == stSize % UINT_WRAP
    {
      hide Disk.Safe, InPhase;
      b := stSize % UINT_WRAP;
    }

    /** opencurrent: "current" is opened, or started when there is none. */
    method OpenLog() returns (o: Outcome)
      requires disk.Safe() && (limit, maxDirSize) in disk.limits && rstate.Writable? && stamp <= disk.clock
      requires (size, tolerance) in disk.order.shapes
      requires disk.faultless ==>
              && Previous !in disk.fs.dir && Unprocessed(disk.fs)
              && (Current in disk.fs.dir ==> !disk.fs.Archived(disk.fs.dir[Current]))
      modifies this`fd, disk`fs, disk`order
      ensures disk.Safe() && (o.Ok? ==> Phase())
      ensures o.Ok? && Current in old(disk.fs).dir ==> fd == old(disk.fs).dir[Current]
      ensures o.Ok? && Current !in old(disk.fs).dir ==> fd !in old(disk.fs).files
      ensures o.Ok? && disk.faultless ==>
                fd in disk.fs.files &&
                disk.fs.files[fd].data == if fd in old(disk.fs).files then old(disk.fs).files[fd].data else []
      ensures old(disk.order).Grows(disk.order, 1)
      ensures disk.kernel.Flawless? ==> o.Ok?
    {
      hide Good, InPhase, Disk.Justified, Disk.Spared, Closed;
      var i;
      o, i := OpenCurrent();
      if o.Ok? {
        o := Reopen(i);
      }
    }

    method FirstClock() returns (t: nat)
      requires disk.Safe()
      modifies disk`clock
      ensures disk.Safe() && t == disk.clock && (disk.faultless ==> Passed(disk.fs, t))
    {
      t := disk.Now();
    }

    /** fchmod of the freshly opened "current". */
    method Reopen(i: Ino) returns (o: Outcome)
      requires disk.Safe() && (limit, maxDirSize) in disk.limits && rstate.Writable? && stamp <= disk.clock
      requires (size, tolerance) in disk.order.shapes
      requires disk.faultless ==>
              disk.fs.Links(Current, i) && Previous !in disk.fs.dir && Unprocessed(disk.fs) && !disk.fs.Archived(i)
      modifies this`fd, disk`fs
      ensures disk.Safe() && (o.Ok? ==> Phase() && fd == i)
      ensures o.Ok? && disk.faultless ==>
              fd in old(disk.fs).files && fd in disk.fs.files &&
              disk.fs.files[fd].data == old(disk.fs).files[fd].data
      ensures disk.kernel.Flawless? && i in old(disk.fs).files ==> o.Ok?
    {
      hide Disk.Justified, Disk.Spared, Closed;
      ghost var before := disk.fs;
      o := disk.FChmod(i, false);
      if o.Ok? && disk.faultless {
        StepReopen(before, disk.trimmed, disk.clock, disk.order, disk.accepted, i, stamp, child);
      }
      fd := i;
    }

    /** logdir_finalize: sync "current" and mark it as cleanly closed. */
    method Finalize() returns (r: Ret)
      requires Lines()
      requires Phase() && rstate in {Writable, EndFchmod}
      modifies this`rstate, this`stamp, disk`fs, disk`clock
      ensures Phase() && Lines() && RotateFrame(old(disk.fs), disk.trimmed, disk.faultless)
      ensures r == Returned(1) ==>
              rstate.End? && (disk.faultless ==> disk.fs.Executable(Current) && disk.fs.Links(Current, fd))
      ensures r.Returned? && r.value != 1 ==> rstate in {Writable, EndFchmod}
      ensures disk.kernel.Flawless? ==> r.Returned?
      ensures disk.kernel.Flawless? ==> !rstate.Writable?
    {
      if rstate.Writable? {
        var o := disk.Attempt();
        if !o.Ok? {
          return Stopped(o);
        }
        stamp := disk.Now();
        rstate := EndFchmod;
      }
      var o := EndFile();
      r := if o.Ok? then Returned(1) else Stopped(o);
    }

    /** The last step of logdir_finalize: "current" is complete. */
    method EndFile() returns (o: Outcome)
      requires Lines() && Phase() && rstate.EndFchmod?
      modifies this`rstate, disk`fs
      ensures Phase() && Lines() && RotateFrame(old(disk.fs), old(disk.trimmed), old(disk.faultless))
      ensures o.Ok? ==> rstate.End? && (disk.faultless ==> disk.fs.Executable(Current) && disk.fs.Links(Current, fd))
      ensures !o.Ok? ==> rstate.EndFchmod?
      ensures disk.kernel.Flawless? ==> !o.Killed?
    {
      hide Disk.Justified, Disk.Spared, Closed;
      ghost var before := disk.fs;
      o := disk.FChmod(fd, true);
      if o.Ok? {
        if disk.faultless {
          StepFinalize(before, disk.trimmed, disk.clock, disk.order, disk.accepted, fd, stamp, child);
        }
        rstate := End;
      }
    }

    /** The second directory pass: readdir gives the archives in any order. */
    method Collect(unstatable: set<Name>) returns (entries: seq<Entry>, total: nat)
      requires disk.fs.Linked()
      ensures AllArchives(entries) && Distinct(entries) && total == Total(entries)
      ensures Gathers(entries, disk.fs, unstatable, {})
    {
      entries, total := [], 0;
      var todo := disk.fs.dir.Keys;
      while todo != {}
        invariant todo <= disk.fs.dir.Keys
        invariant AllArchives(entries) && Distinct(entries) && total == Total(entries)
        invariant forall n <- todo :: n !in Names(entries)
        invariant Gathers(entries, disk.fs, unstatable, todo)
        decreases todo
      {
        var n :| n in todo;
        todo := todo - {n};
        if n.Archive? && n !in unstatable {
          var e := Entry(n, |disk.fs.files[disk.fs.dir[n]].data|);
          NamesAppend(entries, e);
          TotalAppend(entries, e);
          entries := entries + [e];
          total := total + e.size;
        }
      }
    }
  }

  lemma NamesAppend(es: seq<Entry>, e: Entry)
    ensures Names(es + [e]) == Names(es) + {e.name}
  {
    forall n ensures n in Names(es + [e]) <==> n in Names(es) + {e.name} {
      if n in Names(es) {
        var x :| x in es && x.name == n;
        assert x in es + [e];
      }
      assert e in es + [e];
    }
  }

  /** The entries are the archives outside "todo" that stat(2) could read. */
  ghost predicate Gathers(es: seq<Entry>, fs: Store, unstatable: set<Name>, todo: set<Name>) {
    && (forall n: Name :: n in Names(es) <==> n.Archive? && n in fs.dir && n !in unstatable && n !in todo)
    && (forall e <- es :: e.name in fs.dir && fs.dir[e.name] in fs.files && e.size == |fs.files[fs.dir[e.name]].data|)
  }

  lemma ListingSorted(es: seq<Entry>, sorted: seq<Entry>, fs: Store, unstatable: set<Name>)
    requires AllArchives(es) && AllArchives(sorted) && OldestFirst(sorted) && Gathers(es, fs, unstatable, {})
    requires forall e :: e in sorted <==> e in es
    ensures Listing(sorted, fs, unstatable)
  {
    assert Names(sorted) == Names(es);
  }

  lemma TrimStep(sorted: seq<Entry>, n: nat)
    requires n < |sorted|
    ensures Names(sorted[..n + 1]) == Names(sorted[..n]) + {sorted[n].name}
  {
    assert sorted[..n + 1] == sorted[..n] + [sorted[n]];
    NamesAppend(sorted[..n], sorted[n]);
  }

  /** When every call works, the trimmer stops where it should. */
  lemma TrimmedAll(
      before: Store, after: Store, es: seq<Entry>, unstatable: set<Name>, refused: set<Name>, t: TrimResult,
      limit: nat, maxDirSize: nat)
    requires t.Removed? || t.Overrun? ==> Listing(es, before, unstatable)
    requires t.Overrun? ==> Overruns(es, refused, limit, maxDirSize)
    requires t.Removed? ==> Trimmed(es, t.count, refused, limit, maxDirSize)
    requires t.Removed? ==> after.dir.Keys == before.dir.Keys - (Names(es[..t.count]) - refused)
    requires t.Overrun? ==> after.dir.Keys == before.dir.Keys - (Names(es) - refused)
    ensures (t.Removed? || t.Overrun?) && unstatable == {} && refused == {} ==>
            TrimmedTo(before, after, limit, maxDirSize)
  {
    NothingRefused(es, limit, maxDirSize);
    assert es[..|es|] == es;
    if (t.Removed? || t.Overrun?) && refused == {} {
      assert Names(es[..Gone(es, limit, maxDirSize)]) - refused == Names(es[..Gone(es, limit, maxDirSize)]);
    }
  }

  /** A removal is recorded with the listing that it follows. */
  lemma RemovalDue(r: Removal, fs: Store)
    requires r.n < |r.es| && Listing(r.es, r.fs, r.unstatable) && OnlyTrimmed(r.fs, fs) && r.es[r.n].name in fs.dir
    requires Over(r.es, r.n, r.refused, r.limit, r.maxDirSize) || Overruns(r.es, r.refused, r.limit, r.maxDirSize)
    ensures r.es[r.n].name !in r.refused ==> Due(r)
    ensures r.Origin() == fs.Origin(fs.dir[r.es[r.n].name])
  {
  }

  lemma TrimPending(sorted: seq<Entry>, n: nat, refused: set<Name>, before: Store, fs: Store, unstatable: set<Name>)
    requires Listing(sorted, before, unstatable) && n < |sorted|
    requires fs.dir.Keys == before.dir.Keys - (Names(sorted[..n]) - refused)
    ensures sorted[n].name in fs.dir && sorted[n].name.Archive?
  {
    assert sorted[n].name !in Names(sorted[..n]);
  }

  // ----- what recovery does to "current" -----

  lemma GoodConsistent(fs: Store, trimmed: set<Ino>, clock: nat, order: History, accepted: seq<Byte>)
    requires Good(fs, trimmed, clock, order, accepted)
    ensures fs.Consistent(trimmed)
  {
  }

  /** After the archiving of an interrupted "previous", the name for an interrupted
      "current" is taken exactly if the trimmer has not removed it again. */
  lemma CurrentTaken(
      fs: Store, met: Store, after: Store, trimmed: set<Ino>, stamp: nat, calls: Calls, limit: nat, maxDirSize: nat)
    requires fs.Consistent(trimmed) && Passed(fs, stamp) && Current in fs.dir
    requires Recovers(fs, met, after, stamp, calls, limit, maxDirSize) && calls.AllWork()
    ensures Current in after.dir && after.dir[Current] == fs.dir[Current]
    ensures after.LinkCount(Current) == 1 && Archive(stamp, Unfinished) in after.dir <==>
            Full(fs) && Unprocessed(fs) && Survives(fs, SizeOf(fs, Previous), limit, maxDirSize)
  {
    if Full(fs) && Unprocessed(fs) {
      hide Store.Consistent, FinishResult;
      NameTaken(fs, met, after, trimmed, stamp, calls, limit, maxDirSize);
    } else {
      OnlyOldNames(fs, met, after, stamp, calls, limit, maxDirSize);
    }
  }

  lemma NameTaken(
      fs: Store, met: Store, after: Store, trimmed: set<Ino>, stamp: nat, calls: Calls, limit: nat, maxDirSize: nat)
    requires fs.Consistent(trimmed) && Passed(fs, stamp) && Current in fs.dir && Full(fs) && Unprocessed(fs) &&
            calls.AllWork()
    requires Discards(fs, met) &&
            FinishResult(met, after, Previous, Archive(stamp, Unfinished), calls, limit, maxDirSize)
    ensures Current in after.dir && after.dir[Current] == fs.dir[Current] && after.LinkCount(Current) == 1
    ensures Archive(stamp, Unfinished) in after.dir <==> Survives(fs, SizeOf(fs, Previous), limit, maxDirSize)
  {
    var name := Archive(stamp, Unfinished);
    SolePrevious(fs, met, trimmed);
    var done := met.Link(Previous, name).Unlink(Previous);
    assert done == AfterFinish(met, Previous, name, calls) && Removes(met, Previous, name, calls);
    DoneNames(fs, met, done, name, trimmed);
    hide Store.Consistent, Full, Unprocessed, TrimmedTo, AfterFinish, Removes, Discards, Survives, NewestFits;
    NewestKept(done, after, name, limit, maxDirSize);
    ListedWith(fs, done, name, limit, maxDirSize);
    SoleCurrent(fs, done, after, name, trimmed);
  }

  lemma DoneNames(fs: Store, met: Store, done: Store, name: Name, trimmed: set<Ino>)
    requires fs.Consistent(trimmed) && Full(fs) && Unprocessed(fs) && Discards(fs, met) && Previous in met.dir
    requires name.Archive? && Passed(fs, name.stamp) && done == met.Link(Previous, name).Unlink(Previous)
    ensures done.files == fs.files && fs.dir[Previous] in fs.files && name in done.dir &&
            done.dir[name] == fs.dir[Previous]
    ensures forall n <- done.dir | n != name :: n != Previous && n in fs.dir && done.dir[n] == fs.dir[n]
    ensures forall n <- fs.dir | n !in {State, NewState, Processed, Previous} :: n in done.dir
    ensures forall n <- done.dir | n.Archive? && n != name :: n.stamp < name.stamp
  {
    hide Store.Overlaps, Store.Unique, Full;
  }

  lemma SolePrevious(fs: Store, met: Store, trimmed: set<Ino>)
    requires fs.Consistent(trimmed) && Full(fs) && Unprocessed(fs) && Discards(fs, met)
    ensures Previous in met.dir && met.LinkCount(Previous) == 1
  {
    OtherLink(met, Previous);
    if met.LinkCount(Previous) != 1 {
      var m :| m != Previous && m in met.dir && met.dir[m] == met.dir[Previous];
      assert fs.Archives(m, fs.dir[Previous]);
    }
  }

  /** The listing after the archiving is the one before it and the new archive. */
  lemma ListedWith(fs: Store, done: Store, name: Name, limit: nat, maxDirSize: nat)
    requires name.Archive? && name !in fs.dir && name in done.dir && done.files == fs.files
    requires Previous in fs.dir && fs.dir[Previous] in fs.files && done.dir[name] == fs.dir[Previous]
    requires forall n <- done.dir | n != name :: n in fs.dir && done.dir[n] == fs.dir[n]
    requires forall n <- fs.dir | n.Archive? :: n in done.dir
    requires forall n <- done.dir | n.Archive? && n != name :: n.stamp < name.stamp
    ensures (exists es :: Listing(es, done, {}) && NewestFits(es, limit, maxDirSize)) <==>
            Survives(fs, SizeOf(fs, Previous), limit, maxDirSize)
  {
    hide NewestFits;
    var size := SizeOf(fs, Previous);
    forall es | Listing(es, done, {})
      ensures NewestFits(es, limit, maxDirSize) ==> Survives(fs, size, limit, maxDirSize)
    {
      LastIsNewest(es, done, name);
      var older := es[..|es| - 1];
      assert es == older + [Entry(name, size)];
      OlderListed(fs, done, es, name);
      SizesOnly(older, Entry(name, size), Entry(Previous, size), limit, maxDirSize);
    }
    forall es | Listing(es, fs, {}) && NewestFits(es + [Entry(Previous, size)], limit, maxDirSize)
      ensures Listing(es + [Entry(name, size)], done, {}) && NewestFits(es + [Entry(name, size)], limit, maxDirSize)
    {
      NewListed(fs, done, es, name);
      SizesOnly(es, Entry(name, size), Entry(Previous, size), limit, maxDirSize);
    }
  }

  lemma OlderListed(fs: Store, done: Store, es: seq<Entry>, name: Name)
    requires Listing(es, done, {}) && es != [] && es[|es| - 1].name == name && name !in Names(es[..|es| - 1])
    requires name !in fs.dir && done.files == fs.files
    requires forall n <- done.dir | n != name :: n in fs.dir && done.dir[n] == fs.dir[n]
    requires forall n <- fs.dir | n.Archive? :: n in done.dir
    ensures Listing(es[..|es| - 1], fs, {})
  {
    var older := es[..|es| - 1];
    assert es == older + [es[|es| - 1]];
    NamesAppend(older, es[|es| - 1]);
    forall e <- older ensures e in es && e.name != name {
      assert e.name in Names(older);
    }
  }

  lemma NewListed(fs: Store, done: Store, es: seq<Entry>, name: Name)
    requires Listing(es, fs, {}) && name.Archive? && name !in fs.dir && name in done.dir && done.files == fs.files
    requires Previous in fs.dir && fs.dir[Previous] in fs.files && done.dir[name] == fs.dir[Previous]
    requires forall n <- done.dir | n != name :: n in fs.dir && done.dir[n] == fs.dir[n]
    requires forall n <- fs.dir | n.Archive? :: n in done.dir
    requires forall n <- done.dir | n.Archive? && n != name :: n.stamp < name.stamp
    ensures Listing(es + [Entry(name, SizeOf(fs, Previous))], done, {})
  {
    var last := Entry(name, SizeOf(fs, Previous));
    NamesAppend(es, last);
    forall e <- es ensures e.name in done.dir && e.name.stamp < name.stamp && done.dir[e.name] == fs.dir[e.name] {
      assert e.name in Names(es);
    }
  }

  /** Names do not matter to what has to go. */
  lemma SizesOnly(es: seq<Entry>, a: Entry, b: Entry, limit: nat, maxDirSize: nat)
    requires a.size == b.size
    ensures NewestFits(es + [a], limit, maxDirSize) <==> NewestFits(es + [b], limit, maxDirSize)
  {
    ExcessSizes(es, a, b, limit, maxDirSize);
  }

  lemma {:induction false} ExcessSizes(es: seq<Entry>, a: Entry, b: Entry, limit: nat, maxDirSize: nat)
    requires a.size == b.size
    ensures Excess(es + [a], limit, maxDirSize) == Excess(es + [b], limit, maxDirSize)
    ensures Total(es + [a]) == Total(es + [b])
  {
    TotalAppend(es, a);
    TotalAppend(es, b);
    if es == [] {
      assert (es + [a])[1..] == (es + [b])[1..] == [];
    } else {
      assert (es + [a])[1..] == es[1..] + [a] && (es + [b])[1..] == es[1..] + [b];
      ExcessSizes(es[1..], a, b, limit, maxDirSize);
    }
  }

  lemma SoleCurrent(fs: Store, done: Store, after: Store, name: Name, trimmed: set<Ino>)
    requires fs.Consistent(trimmed) && Full(fs) && Unprocessed(fs) && Current in fs.dir && Current in after.dir
    requires after.dir[Current] == fs.dir[Current]
    requires forall n <- after.dir ::
            n != Previous &&
            ((n in fs.dir && after.dir[n] == fs.dir[n]) || (n == name && after.dir[n] == fs.dir[Previous]))
    ensures after.LinkCount(Current) == 1
  {
    OtherLink(after, Current);
    forall m <- after.dir ensures after.dir[m] == after.dir[Current] ==> m == Current {
      if m.Archive? && m in fs.dir {
        assert fs.Archives(m, fs.Origin(fs.dir[m]));
      }
    }
  }

  lemma OnlyOldNames(fs: Store, met: Store, after: Store, stamp: nat, calls: Calls, limit: nat, maxDirSize: nat)
    requires Passed(fs, stamp) && Recovers(fs, met, after, stamp, calls, limit, maxDirSize)
    requires !(Full(fs) && Unprocessed(fs)) && fs.Overlaps() && Current in fs.dir
    ensures Archive(stamp, Unfinished) !in after.dir
    ensures Current in after.dir && after.dir[Current] == fs.dir[Current]
  {
    if !fs.Executable(Processed) && Previous in met.dir {
      var n :| fs.Archives(n, fs.dir[Previous]);
      OtherLink(met, Previous);
      assert n in met.dir && met.dir[n] == met.dir[Previous];
    }
  }

  // ----- exactly once -----

  /** g is being written, or was trimmed, or is archived under exactly one name. */
  ghost predicate ExactlyOnce(fs: Store, trimmed: set<Ino>, g: Ino, current: Ino) {
    if g == current then g !in trimmed && !fs.Archived(g)
    else if g in trimmed then !fs.Archived(g)
    else exists n :: fs.Archives(n, g) && forall m :: fs.Archives(m, g) ==> m == n
  }

  /** Between rotations, every generation there has ever been is in one place. */
  lemma SettledExactlyOnce(
      fs: Store, trimmed: set<Ino>, clock: nat, order: History, accepted: seq<Byte>, fd: Ino, stamp: nat,
      child: Child, g: Ino)
    requires Good(fs, trimmed, clock, order, accepted) && InPhase(Writable, fs, fd, stamp, child) && g in order.gens
    ensures ExactlyOnce(fs, trimmed, g, fd)
  {
    assert fs.IsGeneration(g);
    if g != fd && g !in trimmed {
      assert fs.Kept(g);
      var n :| fs.Archives(n, g);
    }
  }

  /** What can happen to a log directory. */
  datatype Event =
    | Boot(size: nat, limit: Word, tolerance: nat, maxDirSize: nat, processor: bool)
    | Input(s: seq<Byte>)
    | Alarm
    | Tick
    | ChildOpens
    | ChildWrites(s: seq<Byte>)
    | ChildExits(success: bool)
    | CleanExit
    | Kill

  /** The bounds that the script parser puts on the size and number of files. */
  function Clamp(x: nat, low: nat, high: nat): nat
    requires low <= high
  {
    if x < low then low else if x > high then high else x
  }

  /** The limits of the processes that the first k events start. */
  function Limits(events: seq<Event>, k: nat): set<(nat, nat)>
    requires k <= |events|
  {
    if k == 0 then {} else Limits(events, k - 1) + LimitsOf(events[k - 1])
  }

  function LimitsOf(e: Event): set<(nat, nat)> {
    if e.Boot? then {(if e.limit < 2 then 2 else e.limit, e.maxDirSize)} else {}
  }

  /** The generations that an event may cut off: an alarm the open file unless it is empty,
      a start the one that was not closed cleanly. */
  ghost function CutBy(e: Event, fs: Store, ld: LogDir?): set<Ino>
    reads ld
  {
    match e
    case Boot(_, _, _, _, _) => Interrupted(fs)
    case Alarm => if ld != null && ld.rstate.Writable? && ld.b != 0 then {ld.fd} else {}
    case _ => {}
  }

  /** How many of the first k events can cut a generation off. */
  function Cuts(events: seq<Event>, k: nat): nat
    requires k <= |events|
  {
    if k == 0 then 0 else Cuts(events, k - 1) + if events[k - 1].Boot? || events[k - 1].Alarm? then 1 else 0
  }

  /** The file sizes and tolerances of the processes that the first k events start. */
  function Shapes(events: seq<Event>, k: nat): set<(nat, nat)>
    requires k <= |events|
  {
    if k == 0 then {} else Shapes(events, k - 1) + ShapesOf(events[k - 1])
  }

  function ShapesOf(e: Event): set<(nat, nat)> {
    if e.Boot? then {(Clamp(e.size, 4096, 16777215), e.tolerance)} else {}
  }

  function InputOf(e: Event): seq<Byte> {
    if e.Input? then e.s else []
  }

  /** What the first k events leave in the log when "took" bytes of each are accepted. */
  function Taken(events: seq<Event>, took: seq<nat>, k: nat): seq<Byte>
    requires k <= |events| && k <= |took| && Fit(events, took, k)
  {
    if k == 0 then [] else Taken(events, took, k - 1) + InputOf(events[k - 1])[..took[k - 1]]
  }

  predicate Fit(events: seq<Event>, took: seq<nat>, k: nat)
    requires k <= |events| && k <= |took|
  {
    forall j | 0 <= j < k :: took[j] <= |InputOf(events[j])|
  }

  /** A process has been started and not killed since. */
  predicate Alive(events: seq<Event>, k: nat)
    requires k <= |events|
  {
    k > 0 && (events[k - 1].Boot? || (!events[k - 1].Kill? && Alive(events, k - 1)))
  }

  /** And it has not been told to exit. */
  predicate Serving(events: seq<Event>, k: nat)
    requires k <= |events|
  {
    k > 0 && (events[k - 1].Boot? || (!events[k - 1].Kill? && !events[k - 1].CleanExit? && Serving(events, k - 1)))
  }

  /** Whatever arrives while a process serves is accepted, at least its first byte. */
  predicate Served(events: seq<Event>, took: seq<nat>, k: nat)
    requires k <= |events| && k <= |took|
  {
    forall j | 0 <= j < k && InputOf(events[j]) != [] && Serving(events, j) :: took[j] > 0
  }

  /** No process is started with a processor. */
  predicate Unprocessing(events: seq<Event>) {
    forall e <- events :: e.Boot? ==> !e.processor
  }

  /** Between two events, a process without a processor has no rotation under way. */
  predicate Settled(ld: LogDir)
    reads ld
  {
    !ld.processor && (ld.rstate.Writable? || ld.rstate.EndFchmod? || ld.rstate.End?)
  }

  /** Any run of any number of s6-log processes, one after the other, each of them
      killed at any point or stopped cleanly, with any system calls failing.  The flag
      stays if the kernel obliges and the limits leave room; if the kernel is flawless
      besides, every process starts and accepts what it is given. */
  method Run(disk: Disk, events: seq<Event>) returns (ld: LogDir?, ghost took: seq<nat>)
    requires disk.Safe()
    modifies disk
    ensures disk.Safe() && old(disk.trimmed) <= disk.trimmed
    ensures disk.Justified() && disk.limits == old(disk.limits) + Limits(events, |events|)
    ensures ld != null ==> fresh(ld) && ld.disk == disk && ld.Phase() && ld.Lines()
    ensures ld != null && ld.rstate.Writable? && disk.faultless ==>
            forall g <- disk.order.gens :: ExactlyOnce(disk.fs, disk.trimmed, g, ld.fd)
    ensures disk.faultless ==> Recorded(disk.fs, disk.order, disk.accepted) && AllClosed(disk.fs, disk.order)
    ensures Adds(old(disk.order), disk.order, events, |events|)
    ensures disk.kernel.Obliges() &&
            (forall l <- disk.limits :: l.0 + |old(disk.order.gens)| + 3 * |events| < UINT_WRAP) ==>
            disk.faultless
    ensures |took| == |events| && Fit(events, took, |events|)
            && disk.accepted == old(disk.accepted) + Taken(events, took, |events|)
    ensures disk.kernel.Flawless? ==> (ld != null <==> Alive(events, |events|))
    ensures disk.kernel.Flawless? && disk.faultless && Unprocessing(events) ==> Served(events, took, |events|)
  {
    hide Disk.Safe, Disk.Justified, Disk.Spared, Closed, LogDir.Phase, LogDir.Lines, ExactlyOnce, Recorded, Settled,
      Unprocessing, Adds, CutBy, History.Follows, AllClosed, Alive, Serving, Served, Limits, Taken, Fit, InputOf,
      LimitsOf, ShapesOf;
    NothingYet(disk.order, events);
    ld, took := null, [];
    var k := 0;
    while k < |events|
      invariant 0 <= k <= |events| && disk.Safe() && old(disk.trimmed) <= disk.trimmed
      invariant disk.limits == old(disk.limits) + Limits(events, k)
      invariant ld != null ==> fresh(ld) && ld.disk == disk && ld.Phase() && ld.Lines() && 0 < ld.size
      invariant Adds(old(disk.order), disk.order, events, k)
      invariant |took| == k && Fit(events, took, k) && disk.accepted == old(disk.accepted) + Taken(events, took, k)
      invariant disk.kernel.Flawless? ==> (ld != null <==> Alive(events, k))
      invariant disk.kernel.Flawless? && disk.faultless && Unprocessing(events) ==>
              (ld != null ==> Settled(ld)) && (Serving(events, k) <==> ld != null && ld.rstate.Writable?) &&
              Served(events, took, k)
    {
      Plain(events, k);
      ghost var n;
      ghost var before, order, ends := took, disk.order, CutBy(events[k], disk.fs, ld);
      FewCuts(events[k], disk.fs, ld);
      ld, n := Happens(disk, ld, events[k]);
      AddsMore(old(disk.order), order, disk.order, events, k, ends);
      took := took + [n];
      OneMoreTaken(events, before, n, k);
      OneMoreEvent(events, before, n, k);
      k := k + 1;
    }
    Settles(disk, ld);
    Conclude(disk, old(disk.order), events);
  }

  /** What k events add to the history: each of them at most three generations, a start the
      sizes of its files, and an alarm or a start one generation that was cut off. */
  predicate Adds(before: History, after: History, events: seq<Event>, k: nat)
    requires k <= |events|
  {
    && before.gens <= after.gens && |after.gens| <= |before.gens| + 3 * k
    && after.shapes == before.shapes + Shapes(events, k)
    && before.cut <= after.cut && |after.cut| <= |before.cut| + Cuts(events, k)
  }

  lemma AddsMore(start: History, before: History, after: History, events: seq<Event>, k: nat, ends: set<Ino>)
    requires k < |events| && Adds(start, before, events, k) && before.Follows(after, 3, ShapesOf(events[k]), ends)
    requires |ends| <= if events[k].Boot? || events[k].Alarm? then 1 else 0
    ensures Adds(start, after, events, k + 1)
  {
    Subset(after.cut, before.cut + ends);
  }

  lemma NothingYet(order: History, events: seq<Event>)
    ensures Adds(order, order, events, 0) && Limits(events, 0) == {} && !Alive(events, 0) && !Serving(events, 0)
    ensures Fit(events, [], 0) && Taken(events, [], 0) == [] && Served(events, [], 0)
  {
  }

  lemma OneMoreEvent(events: seq<Event>, took: seq<nat>, n: nat, k: nat)
    requires k < |events| && |took| == k
    ensures Limits(events, k + 1) == Limits(events, k) + LimitsOf(events[k])
    ensures Alive(events, k + 1) <==> events[k].Boot? || (!events[k].Kill? && Alive(events, k))
    ensures Serving(events, k + 1) <==>
            events[k].Boot? || (!events[k].Kill? && !events[k].CleanExit? && Serving(events, k))
    ensures Served(events, took + [n], k + 1) <==>
            Served(events, took, k) && (InputOf(events[k]) != [] && Serving(events, k) ==> n > 0)
  {
    hide Serving;
    ServingStep(events, k);
    var longer := took + [n];
    assert forall j | 0 <= j < k :: longer[j] == took[j];
  }

  lemma ServingStep(events: seq<Event>, k: nat)
    requires k < |events|
    ensures Serving(events, k + 1) <==>
            events[k].Boot? || (!events[k].Kill? && !events[k].CleanExit? && Serving(events, k))
  {
  }

  lemma FewCuts(e: Event, fs: Store, ld: LogDir?)
    ensures |CutBy(e, fs, ld)| <= if e.Boot? || e.Alarm? then 1 else 0
  {
  }

  lemma Plain(events: seq<Event>, k: nat)
    requires k < |events|
    ensures Unprocessing(events) && events[k].Boot? ==> !events[k].processor
  {
    assert events[k] in events;
  }

  lemma {:induction false} TakenPrefix(events: seq<Event>, took: seq<nat>, n: nat, k: nat)
    requires k <= |events| && k <= |took| && Fit(events, took, k)
    ensures Fit(events, took + [n], k) && Taken(events, took + [n], k) == Taken(events, took, k)
  {
    if k > 0 {
      TakenPrefix(events, took, n, k - 1);
    }
  }

  lemma OneMoreTaken(events: seq<Event>, took: seq<nat>, n: nat, k: nat)
    requires k < |events| && |took| == k && Fit(events, took, k) && n <= |InputOf(events[k])|
    ensures Fit(events, took + [n], k + 1)
    ensures Taken(events, took + [n], k + 1) == Taken(events, took, k) + InputOf(events[k])[..n]
  {
    TakenPrefix(events, took, n, k);
  }

  /** Between rotations, every generation is in one place. */
  lemma Settles(disk: Disk, ld: LogDir?)
    requires disk.Safe() && (ld != null ==> ld.disk == disk && ld.Phase())
    ensures disk.faultless ==> Recorded(disk.fs, disk.order, disk.accepted) && AllClosed(disk.fs, disk.order)
    ensures ld != null && ld.rstate.Writable? && disk.faultless ==>
            forall g <- disk.order.gens :: ExactlyOnce(disk.fs, disk.trimmed, g, ld.fd)
  {
    if ld != null && ld.rstate.Writable? && disk.faultless {
      forall g <- disk.order.gens ensures ExactlyOnce(disk.fs, disk.trimmed, g, ld.fd) {
        SettledExactlyOnce(disk.fs, disk.trimmed, disk.clock, disk.order, disk.accepted, ld.fd, ld.stamp, ld.child, g);
      }
    }
  }

  lemma Conclude(disk: Disk, start: History, events: seq<Event>)
    requires disk.Safe() && Adds(start, disk.order, events, |events|)
    ensures disk.Justified()
    ensures disk.kernel.Obliges() && (forall l <- disk.limits :: l.0 + |start.gens| + 3 * |events| < UINT_WRAP) ==>
            disk.faultless
  {
  }

  /** A process with limits from the parser of scripts. */
  method StartProcess(disk: Disk, e: Event) returns (ld: LogDir, r: Ret)
    requires disk.Safe() && e.Boot?
    modifies disk
    ensures fresh(ld) && ld.disk == disk && ld.processor == e.processor && 0 < ld.size
    ensures disk.Safe() && old(disk.trimmed) <= disk.trimmed && disk.limits == old(disk.limits) + LimitsOf(e)
    ensures old(disk.order).Follows(disk.order, 3, ShapesOf(e), Interrupted(old(disk.fs)))
    ensures r.Returned? ==> ld.Phase() && ld.Lines() && ld.rstate.Writable?
    ensures disk.accepted == old(disk.accepted) && (disk.faultless ==> old(disk.faultless))
    ensures disk.kernel.Flawless? ==> r.Returned?
  {
    hide Good, InPhase, Closed, Disk.Safe, LogDir.Phase, LogDir.Lines;
    ld := new LogDir(
      disk, Clamp(e.size, 4096, 16777215), if e.limit < 2 then 2 else e.limit, e.tolerance, e.maxDirSize, e.processor);
    disk.Allow(ld.limit, ld.maxDirSize, ld.size, ld.tolerance);
    ghost var first, second;
    r, first, second := ld.Init();
  }

  method Happens(disk: Disk, ld: LogDir?, e: Event) returns (after: LogDir?, ghost took: nat)
    requires disk.Safe()
    requires ld != null ==> ld.disk == disk && ld.Phase() && ld.Lines() && 0 < ld.size
    modifies disk, if ld != null then {ld} else {}
    ensures disk.Safe() && old(disk.trimmed) <= disk.trimmed && disk.limits == old(disk.limits) + LimitsOf(e)
    ensures after != null ==> if e.Boot? then fresh(after) else after == ld
    ensures after != null ==> after.disk == disk && after.Phase() && after.Lines() && 0 < after.size
    ensures disk.faultless ==> old(disk.faultless)
    ensures old(disk.order).Follows(disk.order, 3, ShapesOf(e), old(CutBy(e, disk.fs, ld)))
    ensures e.Alarm? && after != null && ld != null && old(ld.rstate.Writable? && ld.b != 0) &&
            after.rstate.Writable? ==>
            after.b == 0
    ensures took <= |InputOf(e)| && disk.accepted == old(disk.accepted) + InputOf(e)[..took]
    ensures disk.kernel.Flawless? ==> (after != null <==> e.Boot? || (ld != null && !e.Kill?))
    ensures disk.kernel.Flawless? && disk.faultless && (ld != null ==> old(Settled(ld))) &&
            (e.Boot? ==> !e.processor) ==>
              && (after != null ==> Settled(after))
              && (after != null && after.rstate.Writable? <==>
                  e.Boot? || (ld != null && old(ld.rstate).Writable? && !e.CleanExit? && !e.Kill?))
              && (ld != null && old(ld.rstate).Writable? && InputOf(e) != [] ==> took > 0)
  {
    hide Good, InPhase, Closed, Disk.Safe, LogDir.Phase, LogDir.Lines;
    if ld != null {
      ld.IdleSafe();
    }
    after, took := ld, 0;
    var r := Returned(0);
    assert InputOf(e)[..0] == [];
    match e {
      case Boot(_, _, _, _, _) =>
        after, r := StartProcess(disk, e);
      case Input(s) =>
        if ld != null && s != [] && !ld.rstate.EndFchmod? && !ld.rstate.End? {
          r, took := ld.LogdirWrite(s);
        }
      case Alarm =>
        if ld != null {
          r := ld.HandleAlarm();
        }
      case Tick =>
        if ld != null {
          ld.ReadClock();
        }
      case ChildOpens =>
        if ld != null && ld.rstate.WaitProcessor? && ld.child.Forked? {
          var o := ld.ProcessorOpens();
        }
      case ChildWrites(s) =>
        if ld != null && ld.rstate.WaitProcessor? && ld.child.Running? {
          ld.ProcessorWrites(s);
        }
      case ChildExits(success) =>
        if ld != null && ld.rstate.WaitProcessor? {
          r := ld.ProcessorDied(success && ld.child.Running?);
        }
      case CleanExit =>
        if ld != null && (ld.rstate.Writable? || ld.rstate.EndFchmod?) {
          r := ld.Finalize();
        }
      case Kill =>
        r := Died;
    }
    if r.Died? {
      after := null;
    }
  }
}
