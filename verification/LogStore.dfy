/** The directory that s6-log keeps, as a value: names, the inodes they link to,
    and what each inode holds.  Every operation is one file-system step; the
    lemmas say which steps keep every generation of "current" in exactly one
    place, so that a crash between any two of them is harmless. */
module LogStore {

  type Byte = b: int | 0 <= b < 256
  type Ino = nat

  const NEWLINE: Byte := 10

  /** The program's counters are 32-bit unsigned integers. */
  const UINT_WRAP: nat := 0x1_0000_0000

  type Word = n: nat | n < UINT_WRAP

  /** Archives are named @timestamp.s or @timestamp.u. */
  datatype Suffix = Finished | Unfinished

  datatype Name =
    | Current
    | Previous
    | Processed
    | State
    | NewState
    | Archive(stamp: nat, suffix: Suffix)

  /** What a file holds: one generation of "current", what a processor wrote for
      a generation (whole once the processor has exited 0), or processor state. */
  datatype Kind = Log | Output(source: Ino, whole: bool) | Scratch

  datatype File = File(kind: Kind, data: seq<Byte>, exec: bool)

  /** "files" also remembers the inodes that no name links to any more. */
  datatype Store = Store(dir: map<Name, Ino>, files: map<Ino, File>) {

    predicate Links(n: Name, i: Ino) {
      n in dir && dir[n] == i
    }

    /** The link count that stat(2) reports for the file called n. */
    function LinkCount(n: Name): nat
      requires n in dir
    {
      |set m | m in dir && dir[m] == dir[n]|
    }

    predicate Executable(n: Name) {
      n in dir && dir[n] in files && files[dir[n]].exec
    }

    /** The generation whose content inode i stands for. */
    function Origin(i: Ino): Ino {
      if i in files && files[i].kind.Output? then files[i].kind.source else i
    }

    predicate IsGeneration(g: Ino) {
      g in files && files[g].kind.Log?
    }

    predicate Archives(n: Name, g: Ino) {
      n.Archive? && n in dir && Origin(dir[n]) == g
    }

    ghost predicate Archived(g: Ino) {
      exists n :: Archives(n, g)
    }

    /** Recovery trusts "processed" exactly when it is executable. */
    predicate Trusted(g: Ino) {
      Executable(Processed) && Origin(dir[Processed]) == g
    }

    ghost predicate Kept(g: Ino) {
      Links(Current, g) || Links(Previous, g) || Trusted(g) || Archived(g)
    }

    static predicate Fits(n: Name, k: Kind) {
      match n
      case Current => k.Log?
      case Previous => k.Log?
      case Processed => k.Output?
      case State => k.Scratch?
      case NewState => k.Scratch?
      case Archive(_, _) => k.Log? || (k.Output? && k.whole)
    }

    /** No name dangles. */
    predicate Linked() {
      forall n <- dir :: dir[n] in files
    }

    ghost predicate Sound() {
      && Linked()
      && (forall n <- dir :: Fits(n, files[dir[n]].kind))
      && (forall i <- files | files[i].kind.Output? :: IsGeneration(files[i].kind.source))
    }

    ghost predicate Unique() {
      forall m, n, g :: Archives(m, g) && Archives(n, g) ==> m == n
    }

    /** An archive of g that is a second link to the file called n. */
    ghost predicate OnlyLinked(n: Name, g: Ino)
      requires n in dir
    {
      forall m :: Archives(m, g) ==> dir[m] == dir[n]
    }

    /** The only generations present twice are those a half-done archiving left
        with two names, or those whose processed form awaits the removal of
        "previous". */
    ghost predicate Overlaps() {
      && (Executable(Processed) ==> files[dir[Processed]].kind.Output? && files[dir[Processed]].kind.whole)
      && (Current in dir && Previous in dir ==> dir[Current] != dir[Previous])
      && (Current in dir ==> !Trusted(dir[Current]))
      && (Current in dir && Archived(dir[Current]) ==>
            Previous !in dir && !Executable(Processed) && !Executable(Current) && OnlyLinked(Current, dir[Current]))
      && (Previous in dir && Archived(dir[Previous]) ==>
            !Executable(Processed) && OnlyLinked(Previous, dir[Previous]))
      && (Executable(Processed) && Archived(Origin(dir[Processed])) ==>
            Previous !in dir && OnlyLinked(Processed, Origin(dir[Processed])))
      && (Executable(Processed) && Previous in dir ==> Origin(dir[Processed]) == dir[Previous])
      && (Processed in dir && !Executable(Processed) ==>
          forall n | n in dir && n != Processed :: dir[n] != dir[Processed])
      && (Executable(Current) ==> Previous !in dir && !Executable(Processed))
    }

    /** What every file-system step keeps: no generation is lost unless the
        trimmer removed its archive, and none is archived twice. */
    ghost predicate Consistent(trimmed: set<Ino>) {
      && Sound()
      && Unique()
      && Overlaps()
      && (forall g <- trimmed :: IsGeneration(g))
      && (forall g | IsGeneration(g) :: g in trimmed <==> !Kept(g))
    }

    /** No generation is in two places. */
    ghost predicate Single() {
      && (Current in dir ==> !Archived(dir[Current]))
      && (Previous in dir ==> !Archived(dir[Previous]))
      && (Executable(Processed) ==> !Archived(Origin(dir[Processed])))
    }

    /** Timestamps come from a clock that has passed every archive's stamp. */
    ghost predicate StampsBelow(clock: nat) {
      forall n <- dir | n.Archive? :: n.stamp <= clock
    }

    // ----- file-system steps -----

    function Link(from: Name, to: Name): Store
      requires from in dir
    {
      this.(dir := dir[to := dir[from]])
    }

    function Unlink(n: Name): Store {
      this.(dir := dir - {n})
    }

    function Rename(from: Name, to: Name): Store
      requires from in dir
    {
      this.(dir := (dir - {from})[to := dir[from]])
    }

    function Chmod(i: Ino, exec: bool): Store
      requires i in files
    {
      this.(files := files[i := files[i].(exec := exec)])
    }

    function Append(i: Ino, s: seq<Byte>): Store
      requires i in files
    {
      this.(files := files[i := files[i].(data := files[i].data + s)])
    }

    /** open(2) with O_CREAT on a missing name: a fresh inode without the executable bit. */
    function Create(n: Name, i: Ino, k: Kind): Store {
      Store(dir[n := i], files[i := File(k, [], false)])
    }

    function Replace(i: Ino, k: Kind, s: seq<Byte>): Store
      requires i in files
    {
      this.(files := files[i := files[i].(kind := k, data := s)])
    }
  }

  /** A file with one link has one name; with any other count it has another one. */
  lemma OtherLink(fs: Store, n: Name)
    requires n in fs.dir
    ensures fs.LinkCount(n) == 1 ==> forall m | m in fs.dir && fs.dir[m] == fs.dir[n] :: m == n
    ensures fs.LinkCount(n) != 1 ==> exists m :: m != n && m in fs.dir && fs.dir[m] == fs.dir[n]
  {
    var links := set m | m in fs.dir && fs.dir[m] == fs.dir[n];
    assert n in links;
    var others := links - {n};
    assert |links| == |others| + 1;
    if others == {} {
      forall m | m in fs.dir && fs.dir[m] == fs.dir[n] ensures m == n {
        assert m in links && m !in others;
      }
    } else {
      var m :| m in others;
      assert m in links;
    }
  }

  lemma LinkArchives(fs: Store, from: Name, to: Name, trimmed: set<Ino>)
    requires fs.Consistent(trimmed)
    requires from in {Current, Previous, Processed} && from in fs.dir && to.Archive? && to !in fs.dir
    requires fs.LinkCount(from) == 1
    requires from == Current ==> Previous !in fs.dir && !fs.Executable(Processed) && !fs.Executable(Current)
    requires from == Previous ==> !fs.Executable(Processed)
    requires from == Processed ==> Previous !in fs.dir && fs.Executable(Processed)
    ensures fs.Link(from, to).Consistent(trimmed)
    ensures forall g :: fs.Link(from, to).Archived(g) <==> fs.Archived(g) || g == fs.Origin(fs.dir[from])
  {
    OtherLink(fs, from);
    var after := fs.Link(from, to);
    var h := fs.Origin(fs.dir[from]);
    assert !fs.Archived(h);
    assert after.Archives(to, h);
    forall m, g ensures after.Archives(m, g) <==> fs.Archives(m, g) || (m == to && g == h) {
    }
    forall g ensures after.Archived(g) <==> fs.Archived(g) || g == h {
      if fs.Archived(g) {
        var m :| fs.Archives(m, g);
        assert after.Archives(m, g);
      }
    }
    forall g | after.IsGeneration(g) ensures after.Kept(g) <==> fs.Kept(g) {
    }
  }

  /** finish's unlink, once an archive holds the file. */
  lemma UnlinkArchived(fs: Store, n: Name, trimmed: set<Ino>)
    requires fs.Consistent(trimmed)
    requires n in {Current, Previous, Processed} && n in fs.dir && fs.LinkCount(n) != 1
    requires n == Processed ==> fs.Executable(Processed)
    ensures fs.Unlink(n).Consistent(trimmed)
    ensures fs.Unlink(n).Single()
    ensures forall g :: fs.Unlink(n).Archived(g) <==> fs.Archived(g)
    ensures fs.Archived(fs.Origin(fs.dir[n]))
  {
    OtherLink(fs, n);
    var after := fs.Unlink(n);
    var h := fs.Origin(fs.dir[n]);
    var other :| other != n && other in fs.dir && fs.dir[other] == fs.dir[n];
    assert fs.Archives(other, h);
    forall m, g ensures after.Archives(m, g) <==> fs.Archives(m, g) {
    }
    forall g ensures after.Archived(g) <==> fs.Archived(g) {
      if fs.Archived(g) {
        var m :| fs.Archives(m, g);
        assert after.Archives(m, g);
      }
    }
    forall g | after.IsGeneration(g) ensures after.Kept(g) <==> fs.Kept(g) {
    }
  }

  /** Removing "previous" once the processed form of its content is trusted. */
  lemma UnlinkPrevious(fs: Store, trimmed: set<Ino>)
    requires fs.Consistent(trimmed) && fs.Executable(Processed)
    ensures fs.Unlink(Previous).Consistent(trimmed)
    ensures forall g :: fs.Unlink(Previous).Archived(g) <==> fs.Archived(g)
  {
    SameArchives(fs, fs.Unlink(Previous));
    var after := fs.Unlink(Previous);
    forall g | after.IsGeneration(g) ensures after.Kept(g) <==> fs.Kept(g) {
    }
  }

  /** Stores with the same archives, carrying the same generations. */
  lemma SameArchives(a: Store, b: Store)
    requires forall n: Name | n.Archive? ::
            (n in a.dir <==> n in b.dir) && (n in a.dir ==> a.Origin(a.dir[n]) == b.Origin(b.dir[n]))
    ensures forall m, g :: a.Archives(m, g) <==> b.Archives(m, g)
    ensures forall g :: a.Archived(g) <==> b.Archived(g)
  {
    forall m, g ensures a.Archives(m, g) <==> b.Archives(m, g) {
    }
    forall g ensures a.Archived(g) <==> b.Archived(g) {
      if a.Archived(g) {
        var m :| a.Archives(m, g);
        assert b.Archives(m, g);
      }
      if b.Archived(g) {
        var m :| b.Archives(m, g);
        assert a.Archives(m, g);
      }
    }
  }

  /** Recovery's removal of a "processed" that it does not trust. */
  lemma UnlinkUntrusted(fs: Store, trimmed: set<Ino>)
    requires fs.Consistent(trimmed) && !fs.Executable(Processed)
    ensures fs.Unlink(Processed).Consistent(trimmed)
    ensures forall g :: fs.Unlink(Processed).Archived(g) <==> fs.Archived(g)
  {
    var after := fs.Unlink(Processed);
    SameArchives(fs, after);
    forall g | after.IsGeneration(g) ensures after.Kept(g) <==> fs.Kept(g) {
    }
  }

  /** The trimmer's unlink loses the one generation it is meant to. */
  lemma TrimArchive(fs: Store, n: Name, trimmed: set<Ino>)
    requires fs.Consistent(trimmed) && fs.Single() && n.Archive? && n in fs.dir
    ensures fs.Unlink(n).Consistent(trimmed + {fs.Origin(fs.dir[n])})
    ensures fs.Unlink(n).Single()
    ensures forall g :: fs.Unlink(n).Archived(g) ==> fs.Archived(g)
  {
    var after := fs.Unlink(n);
    var h := fs.Origin(fs.dir[n]);
    assert fs.Archives(n, h);
    forall m, g ensures after.Archives(m, g) <==> fs.Archives(m, g) && m != n {
    }
    forall g ensures after.Archived(g) <==> fs.Archived(g) && g != h {
      if fs.Archived(g) && g != h {
        var m :| fs.Archives(m, g);
        assert after.Archives(m, g);
      }
    }
    forall g | after.IsGeneration(g) ensures after.Kept(g) <==> fs.Kept(g) && g != h {
    }
  }

  /** rename("current", "previous") at the start of a rotation. */
  lemma RenameCurrent(fs: Store, trimmed: set<Ino>)
    requires fs.Consistent(trimmed) && Current in fs.dir && Previous !in fs.dir
    requires !fs.Executable(Processed) && !fs.Executable(Current)
    ensures fs.Rename(Current, Previous).Consistent(trimmed)
    ensures forall g :: fs.Rename(Current, Previous).Archived(g) <==> fs.Archived(g)
  {
    var after := fs.Rename(Current, Previous);
    SameArchives(fs, after);
    forall g | after.IsGeneration(g) ensures after.Kept(g) <==> fs.Kept(g) {
    }
  }

  /** open_append("current") on a missing name starts a generation. */
  lemma CreateCurrent(fs: Store, i: Ino, trimmed: set<Ino>)
    requires fs.Consistent(trimmed) && Current !in fs.dir && i !in fs.files
    ensures fs.Create(Current, i, Log).Consistent(trimmed)
    ensures forall g :: fs.Create(Current, i, Log).Archived(g) <==> fs.Archived(g)
    ensures !fs.Archived(i)
  {
    var after := fs.Create(Current, i, Log);
    assert forall n <- fs.dir :: fs.dir[n] in fs.files;
    SameArchives(fs, after);
    assert forall n :: !fs.Archives(n, i);
    forall g | after.IsGeneration(g) ensures after.Kept(g) <==> fs.Kept(g) || g == i {
    }
  }

  /** fd_chmod of a whole "processed" makes recovery trust it instead of "previous". */
  lemma TrustProcessed(fs: Store, trimmed: set<Ino>)
    requires fs.Consistent(trimmed) && Processed in fs.dir && Previous in fs.dir
    requires fs.files[fs.dir[Processed]].kind == Output(fs.dir[Previous], true)
    requires !fs.Archived(fs.dir[Previous]) && !fs.Executable(Current)
    ensures fs.Chmod(fs.dir[Processed], true).Consistent(trimmed)
    ensures forall g :: fs.Chmod(fs.dir[Processed], true).Archived(g) <==> fs.Archived(g)
  {
    var after := fs.Chmod(fs.dir[Processed], true);
    SameArchives(fs, after);
    assert forall n <- fs.dir :: after.files[after.dir[n]].kind == fs.files[fs.dir[n]].kind;
    forall g | after.IsGeneration(g) ensures after.Kept(g) <==> fs.Kept(g) {
    }
  }

  /** Finalizing makes "current" executable; reopening it takes the bit away. */
  lemma ChmodCurrent(fs: Store, exec: bool, trimmed: set<Ino>)
    requires fs.Consistent(trimmed) && Current in fs.dir
    requires exec ==> Previous !in fs.dir && !fs.Executable(Processed) && !fs.Archived(fs.dir[Current])
    ensures fs.Chmod(fs.dir[Current], exec).Consistent(trimmed)
    ensures forall g :: fs.Chmod(fs.dir[Current], exec).Archived(g) <==> fs.Archived(g)
  {
    var after := fs.Chmod(fs.dir[Current], exec);
    SameArchives(fs, after);
    assert forall n <- fs.dir :: after.files[after.dir[n]].kind == fs.files[fs.dir[n]].kind;
    forall g | after.IsGeneration(g) ensures after.Kept(g) <==> fs.Kept(g) {
    }
  }

  /** b has a's names, apart from processor state and an untrusted "processed",
      with the same meaning. */
  ghost predicate Alike(a: Store, b: Store) {
    && b.Sound()
    && (forall n <- a.dir | n !in {State, NewState, Processed} :: n in b.dir && b.dir[n] == a.dir[n])
    && (forall n <- b.dir | n !in {State, NewState, Processed} :: n in a.dir)
    && (forall i <- a.files :: i in b.files)
    && (forall i <- b.files :: b.IsGeneration(i) <==> a.IsGeneration(i))
    && (forall n <- a.dir | n.Archive? :: b.Origin(b.dir[n]) == a.Origin(a.dir[n]))
    && (a.Executable(Current) <==> b.Executable(Current))
    && (a.Executable(Processed) <==> b.Executable(Processed))
    && (a.Executable(Processed) ==>
        b.dir[Processed] == a.dir[Processed] && b.files[b.dir[Processed]].kind == a.files[a.dir[Processed]].kind)
    && (Processed in b.dir && !b.Executable(Processed) ==>
        forall n | n in b.dir && n != Processed :: b.dir[n] != b.dir[Processed])
  }

  lemma AlikeConsistent(a: Store, b: Store, trimmed: set<Ino>)
    requires a.Consistent(trimmed) && Alike(a, b)
    ensures b.Consistent(trimmed)
    ensures forall g :: b.Archived(g) <==> a.Archived(g)
  {
    assert a.Sound();
    forall i <- trimmed ensures b.IsGeneration(i) {
      assert a.IsGeneration(i);
    }
    SameArchives(a, b);
    forall g | b.IsGeneration(g) ensures b.Kept(g) <==> a.Kept(g) {
    }
  }
}
