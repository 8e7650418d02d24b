/** s6-log's finish returns 0 when stat, link or unlink fail, and its callers only
    look for negative values; recovery does not look at the result of its own
    unlink.  These lemmas say what each of these failures costs, for every
    directory that a run can leave. */
module IgnoredFaults {
  import opened LogStore
  import opened Trimming
  import opened S6Log

  /** The trimmer that finish called has removed the archive of g. */
  ghost predicate TrimmedAway(done: Store, after: Store, g: Ino) {
    exists n :: n in done.dir && n !in after.dir && done.Archives(n, g)
  }

  /** A rotation without a processor archives "previous" and goes back to writing
      whatever finish's calls did.  Its generation outlives the next rotation, whose
      rename lands on the same name, or is trimmed, exactly when stat and link worked;
      a failed unlink is harmless here. */
  lemma ArchivedIffLinked(
      fs: Store, after: Store, trimmed: set<Ino>, fd: Ino, stamp: nat, calls: Calls, limit: nat, maxDirSize: nat)
    requires fs.Consistent(trimmed) && InPhase(FinishPrevious, fs, fd, stamp, NoChild) && Full(fs)
    requires FinishResult(fs, after, Previous, Archive(stamp, Finished), calls, limit, maxDirSize)
    ensures Current in after.dir
    ensures var g, done := fs.dir[Previous], AfterFinish(fs, Previous, Archive(stamp, Finished), calls);
            after.Rename(Current, Previous).Kept(g) || TrimmedAway(done, after, g) <==> calls.stat && calls.link
  {
    var g, archive := fs.dir[Previous], Archive(stamp, Finished);
    SoleLink(fs, trimmed);
    var done := AfterFinish(fs, Previous, archive, calls);
    var next := after.Rename(Current, Previous);
    if calls.stat && calls.link {
      assert done.Archives(archive, g);
      if archive in after.dir {
        assert next.Archives(archive, g);
      }
    } else {
      assert after == fs;
      forall n ensures !next.Archives(n, g) {
        assert !fs.Archives(n, g);
      }
    }
  }

  /** A full "previous" that is not archived has no second name. */
  lemma SoleLink(fs: Store, trimmed: set<Ino>)
    requires fs.Consistent(trimmed) && Full(fs)
    ensures fs.LinkCount(Previous) == 1
  {
    OtherLink(fs, Previous);
    if fs.LinkCount(Previous) != 1 {
      var m :| m != Previous && m in fs.dir && fs.dir[m] == fs.dir[Previous];
      assert fs.Archives(m, fs.dir[Previous]);
    }
  }

  /** Recovery that trusts "processed" unlinks "previous" first and then finishes.  If the
      process is then killed before it rotates again, the next recovery archives whatever
      it finds under "previous".  The raw form is archived as well exactly if the unlink
      failed; then both forms are there unless the trimmer has removed the first. */
  lemma ProcessedOnceIffUnlinked(
      fs: Store, mid: Store, trimmed: set<Ino>, stamp: nat, later: nat, first: Calls, second: Calls,
      unlinkOk: bool, limit: nat, maxDirSize: nat)
    requires fs.Consistent(trimmed) && fs.Executable(Processed) && Previous in fs.dir
    requires Passed(fs, stamp) && stamp < later && first.AllWork() && second.AllWork()
    requires var met := if unlinkOk then fs.Unlink(Previous) else fs;
             FinishResult(met, mid, Processed, Archive(stamp, Finished), first, limit, maxDirSize)
    ensures var done := AfterFinish(mid, Previous, Archive(later, Unfinished), second);
            && (done.Archives(Archive(later, Unfinished), fs.dir[Previous]) <==> !unlinkOk)
            && (Archive(stamp, Finished) in mid.dir ==> (done.Unique() <==> unlinkOk))
  {
    var g, one, two := fs.dir[Previous], Archive(stamp, Finished), Archive(later, Unfinished);
    var met := if unlinkOk then fs.Unlink(Previous) else fs;
    SoleProcessed(fs, met, trimmed);
    var archived := met.Link(Processed, one).Unlink(Processed);
    assert AfterFinish(met, Processed, one, first) == archived && Removes(met, Processed, one, first);
    assert two !in archived.dir;
    hide Store.Consistent, TrimmedTo;
    if unlinkOk {
      OneForm(fs, archived, trimmed, one);
      assert Previous !in mid.dir;
      assert AfterFinish(mid, Previous, two, second) == mid;
      assert forall n, h :: mid.Archives(n, h) ==> archived.Archives(n, h);
    } else {
      RawKept(fs, archived, mid, trimmed, one);
      var done := mid.Link(Previous, two).Unlink(Previous);
      assert done == AfterFinish(mid, Previous, two, second);
      assert done.dir[two] == fs.dir[Previous];
      BothForms(fs, archived, mid, done, trimmed, one, two);
    }
  }

  lemma OneForm(fs: Store, archived: Store, trimmed: set<Ino>, one: Name)
    requires fs.Consistent(trimmed) && fs.Executable(Processed) && Previous in fs.dir && one.Archive? && one !in fs.dir
    requires fs.Unlink(Previous).LinkCount(Processed) == 1 &&
            archived == fs.Unlink(Previous).Link(Processed, one).Unlink(Processed)
    ensures archived.Unique()
  {
    var met := fs.Unlink(Previous);
    var linked := met.Link(Processed, one);
    LogStore.UnlinkPrevious(fs, trimmed);
    OtherLink(linked, Processed);
    assert linked.dir[one] == linked.dir[Processed];
    LinkArchives(met, Processed, one, trimmed);
    UnlinkArchived(linked, Processed, trimmed);
  }

  lemma BothForms(fs: Store, archived: Store, mid: Store, done: Store, trimmed: set<Ino>, one: Name, two: Name)
    requires fs.Consistent(trimmed) && fs.Executable(Processed) && Previous in fs.dir &&
            mid.Links(Previous, fs.dir[Previous])
    requires one.Archive? && two.Archive? && one != two && fs.Origin(fs.dir[Processed]) == fs.dir[Previous]
    requires archived == fs.Link(Processed, one).Unlink(Processed) && OnlyTrimmed(archived, mid)
    requires done == mid.Link(Previous, two).Unlink(Previous)
    ensures done.Archives(two, fs.dir[Previous]) && (one in mid.dir ==> !done.Unique())
  {
    var g := fs.dir[Previous];
    assert done.Archives(two, g);
    if one in mid.dir {
      assert done.Archives(one, g) && done.Archives(two, g) && one != two;
    }
  }

  lemma SoleProcessed(fs: Store, met: Store, trimmed: set<Ino>)
    requires fs.Consistent(trimmed) && fs.Executable(Processed) && Previous in fs.dir
    requires met == fs || met == fs.Unlink(Previous)
    ensures !fs.Archived(fs.dir[Previous]) && fs.Origin(fs.dir[Processed]) == fs.dir[Previous]
    ensures met.LinkCount(Processed) == 1
  {
    OtherLink(met, Processed);
    if met.LinkCount(Processed) != 1 {
      var m :| m != Processed && m in met.dir && met.dir[m] == met.dir[Processed];
      assert fs.Archives(m, fs.dir[Previous]);
    }
  }

  /** "previous" is still there, under that name only. */
  lemma RawKept(fs: Store, archived: Store, mid: Store, trimmed: set<Ino>, one: Name)
    requires fs.Consistent(trimmed) && fs.Executable(Processed) && Previous in fs.dir && !fs.Archived(fs.dir[Previous])
    requires one.Archive? && archived == fs.Link(Processed, one).Unlink(Processed) && OnlyTrimmed(archived, mid)
    ensures mid.Links(Previous, fs.dir[Previous]) && mid.LinkCount(Previous) == 1
  {
    OtherLink(mid, Previous);
    forall m <- mid.dir ensures mid.dir[m] == mid.dir[Previous] ==> m == Previous {
      if m != one && m.Archive? {
        assert fs.Archives(m, fs.Origin(fs.dir[m]));
      }
    }
  }

  /** When finish cannot unlink "processed", the archive shares its inode with the
      file that the processor of the next rotation truncates.  The archived bytes outlive
      the processor's start, or are trimmed, exactly when the unlink worked or there are
      none. */
  lemma ProcessedKeptIffUnlinked(
      fs: Store, after: Store, trimmed: set<Ino>, fd: Ino, stamp: nat, calls: Calls, limit: nat, maxDirSize: nat,
          i: Ino)
    requires fs.Consistent(trimmed) && InPhase(FinishProcessed, fs, fd, stamp, NoChild) && Ready(fs)
    requires FinishResult(fs, after, Processed, Archive(stamp, Finished), calls, limit, maxDirSize)
    requires calls.stat && calls.link && i !in fs.files
    ensures Current in after.dir && after.Rename(Current, Previous).Linked()
    ensures var started, archive := OutputOpened(after.Rename(Current, Previous), i), Archive(stamp, Finished);
            && (archive in started.dir ==> started.dir[archive] in started.files)
            && (archive !in started.dir || started.files[started.dir[archive]].data == fs.files[fs.dir[Processed]].data
                <==> calls.unlink || fs.files[fs.dir[Processed]].data == [])
  {
    var archive := Archive(stamp, Finished);
    OtherLink(fs, Processed);
    if fs.LinkCount(Processed) != 1 {
      var m :| m != Processed && m in fs.dir && fs.dir[m] == fs.dir[Processed];
      assert fs.Archives(m, fs.Origin(fs.dir[Processed]));
    }
    assert AfterFinish(fs, Processed, archive, calls).dir[archive] == fs.dir[Processed];
  }

  // ----- one time stamp for two files -----

  /** A process was killed while it archived, or had just opened a new file. */
  function Interrupted(): Store {
    Store(map[Previous := 1, Current := 2], map[1 := File(Log, [65], true), 2 := File(Log, [66], false)])
  }

  lemma InterruptedConsistent()
    ensures Interrupted().Consistent({}) && Full(Interrupted()) && Unprocessed(Interrupted()) &&
            ArchiveNames(Interrupted()) == {}
  {
    var fs := Interrupted();
    assert forall n, g :: !fs.Archives(n, g);
    assert fs.Links(Previous, 1) && fs.Links(Current, 2);
    assert forall g | fs.IsGeneration(g) :: fs.Kept(g);
  }

  /** What recovery leaves of it, when the clock shows "stamp". */
  function Recovery(stamp: nat): Store {
    Store(map[Archive(stamp, Unfinished) := 1, Current := 2], Interrupted().files)
  }

  /** Recovery can leave an interrupted "current" unarchived although every call works: the
      second finish finds its name taken and changes nothing. */
  lemma CurrentLeft(stamp: nat, limit: nat)
    requires 0 < limit < UINT_WRAP
    ensures Interrupted().Consistent({})
    ensures var fs, mid, calls := Interrupted(), Recovery(stamp), Calls(true, true, true, true, {}, {});
            && Recovers(fs, fs, mid, stamp, calls, limit, 0)
            && FinishResult(mid, mid, Current, Archive(stamp, Unfinished), calls, limit, 0)
            && mid.Links(Current, fs.dir[Current])
  {
    InterruptedConsistent();
    hide Store.Consistent;
    var fs, mid, calls := Interrupted(), Recovery(stamp), Calls(true, true, true, true, {}, {});
    var name := Archive(stamp, Unfinished);
    OtherLink(fs, Previous);
    OtherLink(mid, Current);
    assert fs.LinkCount(Previous) == 1 && mid.LinkCount(Current) == 1;
    assert AfterFinish(fs, Previous, name, calls).dir == mid.dir;
    OneArchive(mid, name, limit);
  }

  lemma OneArchive(fs: Store, name: Name, limit: nat)
    requires name.Archive? && name in fs.dir && fs.dir[name] in fs.files && forall n <- fs.dir | n.Archive? :: n == name
    requires 0 < limit < UINT_WRAP
    ensures TrimmedTo(fs, fs, limit, 0)
  {
    var es := [Entry(name, |fs.files[fs.dir[name]].data|)];
    assert es[0] in es;
    assert Listing(es, fs, {});
    assert Excess(es, limit, 0) == 0 && Names(es[..0]) == {};
  }
}
