/**
 Any number of threads of one process writing files atomically at once, to the same or to
 different destinations, their system calls interleaved in any order.
 */
module AtomicWriters {
  import opened Support
  import opened FileSystem
  import opened AtomicFile

  type WriterId = nat

  datatype Stage =
    | Opening
    | Drawn(number: nat)
    | Opened
    | Written
    | Synced
    | Replaced
    | Succeeded
    | SyncFailed
    | Failing
    | Failed

  /** `rank` numbers the replacements in the order in which they happen. */
  datatype Writer = Writer(path: Path, contents: Bytes, stage: Stage, temporary: Path, inode: Inode, rank: nat)

  datatype System = System(pid: nat, fs: Fs, sequence: nat, replacements: nat, writers: map<WriterId, Writer>)

  datatype Step =
    | Begin(id: WriterId, path: Path, contents: Bytes)
    | Draw(id: WriterId)
    | Claim(id: WriterId)
    | GiveUp(id: WriterId)
    | WritePart(id: WriterId, data: Bytes)
    | WriteAll(id: WriterId)
    | SyncData(id: WriterId)
    | Fail(id: WriterId)
    | CleanUp(id: WriterId, removed: bool)
    | Replace(id: WriterId)
    | SyncDirectory(id: WriterId, succeeds: bool)

  /** The path is one this process could draw as a temporary name. */
  ghost predicate IsTemporary(pid: nat, path: Path) {
    exists file, sequence :: path.name == TempName(file, pid, sequence)
  }

  ghost predicate Init(s: System) {
    Sound(s.fs) && s.writers == map[]
  }

  ghost predicate Next(s: System, step: Step, s': System) {
    if step.Begin? then
      // Callers do not pick destinations that look like this process's temporary files.
      && step.id !in s.writers && !IsTemporary(s.pid, step.path)
      && s' == s.(writers := s.writers[step.id := Writer(step.path, step.contents, Opening, step.path, 0, 0)])
    else
      step.id in s.writers && Acts(s, step, s.writers[step.id], s')
  }

  ghost function Moved(s: System, id: WriterId, w: Writer, fs: Fs): System {
    s.(fs := fs, writers := s.writers[id := w])
  }

  ghost predicate Acts(s: System, step: Step, w: Writer, s': System)
    requires !step.Begin?
  {
    match step
    case Draw(id) =>
      && w.stage == Opening
      && s' == Moved(s, id, w.(stage := Drawn(s.sequence % U64_SIZE)), s.fs).(sequence := s.sequence + 1)
    case Claim(id) =>
      // Exclusive creation; a name already taken sends the writer back to draw another.
      && w.stage.Drawn?
      && var temporary := TempPath(w.path, s.pid, w.stage.number);
         s' == if temporary in Visible(s.fs) then Moved(s, id, w.(stage := Opening), s.fs)
               else Moved(s, id, w.(stage := Opened, temporary := temporary, inode := s.fs.nextInode),
                          Create(s.fs, temporary))
    case GiveUp(id) => (w.stage == Opening || w.stage.Drawn?) && s' == Moved(s, id, w.(stage := Failed), s.fs)
    case WritePart(id, data) => w.stage == Opened && s' == Moved(s, id, w, Write(s.fs, w.inode, data))
    case WriteAll(id) => w.stage == Opened && s' == Moved(s, id, w.(stage := Written), Write(s.fs, w.inode, w.contents))
    case SyncData(id) =>
      w.stage == Written && w.inode in s.fs.files && s' == Moved(s, id, w.(stage := Synced), SyncFile(s.fs, w.inode))
    case Fail(id) => HasTemporary(w.stage) && s' == Moved(s, id, w.(stage := Failing), s.fs)
    case CleanUp(id, removed) =>
      w.stage == Failing && s' == Moved(s, id, w.(stage := Failed), if removed then Remove(s.fs, w.temporary) else s.fs)
    case Replace(id) =>
      && w.stage == Synced && w.temporary in Visible(s.fs)
      && s' == Moved(s, id, w.(stage := Replaced, rank := s.replacements), Rename(s.fs, w.temporary, w.path))
               .(replacements := s.replacements + 1)
    case SyncDirectory(id, succeeds) =>
      && w.stage == Replaced
      && s' == (if succeeds then Moved(s, id, w.(stage := Succeeded), SyncDir(s.fs, w.path.dir))
                else Moved(s, id, w.(stage := SyncFailed), s.fs))
  }

  ghost predicate HasTemporary(stage: Stage) {
    stage == Opened || stage == Written || stage == Synced || stage == Failing
  }

  ghost predicate HasReplaced(stage: Stage) {
    stage == Replaced || stage == Succeeded || stage == SyncFailed
  }

  // ----- The invariant -----

  ghost predicate WriterInv(start: Fs, s: System, w: Writer) {
    && !IsTemporary(s.pid, w.path)
    && (HasTemporary(w.stage) || HasReplaced(w.stage) ==>
          w.inode in s.fs.files && start.nextInode <= w.inode < s.fs.nextInode)
    && (HasTemporary(w.stage) ==>
          && IsTemporary(s.pid, w.temporary) && w.temporary.dir == w.path.dir
          && Entry(Visible(s.fs), w.temporary) == Some(w.inode))
    && (w.stage == Written ==> s.fs.files[w.inode].data == w.contents)
    && (w.stage == Synced || HasReplaced(w.stage) ==> s.fs.files[w.inode] == File(w.contents, true))
    && (HasReplaced(w.stage) ==> w.rank < s.replacements)
  }

  /** Two writers with a file each have different files, and no two replacements have the same rank. */
  ghost predicate Apart(v: Writer, w: Writer) {
    && ((HasTemporary(v.stage) || HasReplaced(v.stage)) && (HasTemporary(w.stage) || HasReplaced(w.stage)) ==>
          v.inode != w.inode)
    && (HasReplaced(v.stage) && HasReplaced(w.stage) ==> v.rank != w.rank)
  }

  ghost predicate ReplacedAt(s: System, id: WriterId, path: Path) {
    id in s.writers && s.writers[id].path == path && HasReplaced(s.writers[id].stage)
  }

  /** `entry` is the file a writer put at `path` in a replacement of at least the given rank. */
  ghost predicate PutSince(s: System, path: Path, entry: Option<Inode>, rank: nat) {
    exists id :: ReplacedAt(s, id, path) && entry == Some(s.writers[id].inode) && rank <= s.writers[id].rank
  }

  /**
   Whatever may survive a crash was there at the start or was put there. What is visible
   was put there by the latest replacement, and once a writer has returned success nothing
   older than its own replacement can survive.
   */
  ghost predicate PathInv(start: Fs, s: System, path: Path) {
    && (forall entry :: IsCandidate(s.fs, path, entry) ==> IsCandidate(start, path, entry) || PutSince(s, path, entry, 0))
    && (forall id :: ReplacedAt(s, id, path) ==> PutSince(s, path, Entry(Visible(s.fs), path), s.writers[id].rank))
    && (forall id, entry :: ReplacedAt(s, id, path) && s.writers[id].stage == Succeeded && IsCandidate(s.fs, path, entry) ==>
          PutSince(s, path, entry, s.writers[id].rank))
  }

  ghost predicate FilesKept(start: Fs, fs: Fs) {
    && start.nextInode <= fs.nextInode
    && forall inode :: inode in start.files ==> inode in fs.files && fs.files[inode] == start.files[inode]
  }

  ghost predicate Inv(start: Fs, s: System) {
    && Sound(start) && Sound(s.fs) && FilesKept(start, s.fs)
    && (forall id :: id in s.writers ==> WriterInv(start, s, s.writers[id]))
    && (forall id, other {:trigger Apart(s.writers[id], s.writers[other])} ::
          id in s.writers && other in s.writers && id != other ==> Apart(s.writers[id], s.writers[other]))
    && (forall path {:trigger PathInv(start, s, path)} :: !IsTemporary(s.pid, path) ==> PathInv(start, s, path))
  }

  // ----- How the file system may change under the writers -----

  /** The change leaves the live temporary names and the files of all writers but `id` alone. */
  ghost predicate LeavesOthersAlone(s: System, id: WriterId, fs: Fs) {
    && Sound(fs) && s.fs.nextInode <= fs.nextInode
    && forall other :: other in s.writers && other != id ==> LeavesAlone(s.fs, fs, s.writers[other])
  }

  ghost predicate LeavesAlone(fs: Fs, fs': Fs, w: Writer) {
    && (HasTemporary(w.stage) ==> Entry(Visible(fs'), w.temporary) == Entry(Visible(fs), w.temporary))
    && ((HasTemporary(w.stage) || HasReplaced(w.stage)) && w.inode in fs.files ==>
          w.inode in fs'.files && fs'.files[w.inode] == fs.files[w.inode])
  }

  /** Enough to re-establish everything about the writers after writer `id` has moved. */
  lemma WritersKept(start: Fs, s: System, id: WriterId, w: Writer, fs: Fs)
    requires Inv(start, s) && id in s.writers
    requires LeavesOthersAlone(s, id, fs)
    requires WriterInv(start, Moved(s, id, w, fs), w)
    requires w.path == s.writers[id].path
    requires HasTemporary(w.stage) || HasReplaced(w.stage) ==>
               || (w.inode == s.writers[id].inode && (HasTemporary(s.writers[id].stage) || HasReplaced(s.writers[id].stage)))
               || w.inode == s.fs.nextInode
    requires HasReplaced(w.stage) ==>
               || (HasReplaced(s.writers[id].stage) && w.rank == s.writers[id].rank)
               || RanksLast(s, w.rank)
    ensures var s' := Moved(s, id, w, fs);
            && (forall other :: other in s'.writers ==> WriterInv(start, s', s'.writers[other]))
            && (forall one, other {:trigger Apart(s'.writers[one], s'.writers[other])} ::
                  one in s'.writers && other in s'.writers && one != other ==>
                    Apart(s'.writers[one], s'.writers[other]))
  {
    var s' := Moved(s, id, w, fs);
    forall other | other in s'.writers && other != id
      ensures WriterInv(start, s', s'.writers[other]) && Apart(w, s'.writers[other]) && Apart(s'.writers[other], w)
    {
      assert WriterInv(start, s, s.writers[other]);
      assert LeavesAlone(s.fs, fs, s.writers[other]);
      assert Apart(s.writers[id], s.writers[other]);
    }
  }

  ghost predicate RanksLast(s: System, rank: nat) {
    forall id :: id in s.writers && HasReplaced(s.writers[id].stage) ==> s.writers[id].rank < rank
  }

  /** When neither the entries of `path` nor who replaced it change, its invariant stays. */
  lemma PathKept(start: Fs, s: System, s': System, path: Path)
    requires PathInv(start, s, path)
    requires Entry(Visible(s'.fs), path) == Entry(Visible(s.fs), path)
    requires forall entry :: IsCandidate(s'.fs, path, entry) ==> IsCandidate(s.fs, path, entry)
    requires forall id :: ReplacedAt(s, id, path) || ReplacedAt(s', id, path) ==> SameReplacement(s, s', id, path)
    ensures PathInv(start, s', path)
  {
    SameReplacementsSamePuts(s, s', path);
  }

  /** The writer's replacement of `path` is the same in both states, and not newly a success. */
  ghost predicate SameReplacement(s: System, s': System, id: WriterId, path: Path) {
    && ReplacedAt(s, id, path) && ReplacedAt(s', id, path)
    && s'.writers[id].inode == s.writers[id].inode && s'.writers[id].rank == s.writers[id].rank
    && (s'.writers[id].stage == Succeeded ==> s.writers[id].stage == Succeeded)
  }

  lemma SameReplacementsSamePuts(s: System, s': System, path: Path)
    requires forall id :: ReplacedAt(s, id, path) ==>
               ReplacedAt(s', id, path) && s'.writers[id].inode == s.writers[id].inode && s'.writers[id].rank == s.writers[id].rank
    ensures forall entry, rank :: PutSince(s, path, entry, rank) ==> PutSince(s', path, entry, rank)
  {
  }

  /** The change shows at no ordinary path, neither now nor after a crash. */
  ghost predicate InvisibleAtPaths(pid: nat, fs: Fs, fs': Fs) {
    forall path :: !IsTemporary(pid, path) ==> SameAt(fs, fs', path)
  }

  ghost predicate SameAt(fs: Fs, fs': Fs, path: Path) {
    && Entry(Visible(fs'), path) == Entry(Visible(fs), path)
    && forall entry :: IsCandidate(fs', path, entry) ==> IsCandidate(fs, path, entry)
  }

  lemma QuietPath(start: Fs, s: System, id: WriterId, w: Writer, fs: Fs, path: Path)
    requires id in s.writers && PathInv(start, s, path) && SameAt(s.fs, fs, path)
    requires w.path == s.writers[id].path
    requires HasReplaced(w.stage) == HasReplaced(s.writers[id].stage)
    requires w.stage == Succeeded ==> s.writers[id].stage == Succeeded
    requires HasReplaced(w.stage) ==> w.inode == s.writers[id].inode && w.rank == s.writers[id].rank
    ensures PathInv(start, Moved(s, id, w, fs), path)
  {
    PathKept(start, s, Moved(s, id, w, fs), path);
  }

  /** A writer's step that replaces no destination keeps the invariant. */
  lemma QuietStep(start: Fs, s: System, id: WriterId, w: Writer, fs: Fs)
    requires Inv(start, s) && id in s.writers
    requires LeavesOthersAlone(s, id, fs) && FilesKept(start, fs) && InvisibleAtPaths(s.pid, s.fs, fs)
    requires WriterInv(start, Moved(s, id, w, fs), w)
    requires w.path == s.writers[id].path
    requires HasReplaced(w.stage) == HasReplaced(s.writers[id].stage)
    requires w.stage == Succeeded ==> s.writers[id].stage == Succeeded
    requires HasReplaced(w.stage) ==> w.inode == s.writers[id].inode && w.rank == s.writers[id].rank
    requires HasTemporary(w.stage) ==>
               (w.inode == s.writers[id].inode && HasTemporary(s.writers[id].stage)) || w.inode == s.fs.nextInode
    ensures Inv(start, Moved(s, id, w, fs))
  {
    WritersKept(start, s, id, w, fs);
    var s' := Moved(s, id, w, fs);
    forall path | !IsTemporary(s.pid, path)
      ensures PathInv(start, s', path)
    {
      QuietPath(start, s, id, w, fs, path);
    }
  }

  lemma UnchangedDisk(s: System, id: WriterId)
    requires Sound(s.fs)
    ensures LeavesOthersAlone(s, id, s.fs) && InvisibleAtPaths(s.pid, s.fs, s.fs)
  {
  }

  lemma NewStage(start: Fs, s: System, id: WriterId, stage: Stage)
    requires Inv(start, s) && id in s.writers
    requires HasReplaced(stage) == HasReplaced(s.writers[id].stage) && stage != Succeeded
    requires HasTemporary(stage) ==> HasTemporary(s.writers[id].stage) && stage != Written && stage != Synced
    ensures Inv(start, Moved(s, id, s.writers[id].(stage := stage), s.fs))
  {
    assert WriterInv(start, s, s.writers[id]);
    UnchangedDisk(s, id);
    QuietStep(start, s, id, s.writers[id].(stage := stage), s.fs);
  }

  lemma NoDiskEffect(s: System, step: Step, s': System)
    requires Next(s, step, s')
    requires step.GiveUp? || step.Fail? || (step.CleanUp? && !step.removed) || (step.SyncDirectory? && !step.succeeds)
    ensures step.id in s.writers && step.id in s'.writers
    ensures var w, stage := s.writers[step.id], s'.writers[step.id].stage;
            && s' == Moved(s, step.id, w.(stage := stage), s.fs)
            && HasReplaced(stage) == HasReplaced(w.stage) && stage != Succeeded
            && (HasTemporary(stage) ==> HasTemporary(w.stage) && stage == Failing)
  {
  }

  lemma NoDiskStep(start: Fs, s: System, step: Step, s': System)
    requires Inv(start, s) && Next(s, step, s')
    requires step.GiveUp? || step.Fail? || (step.CleanUp? && !step.removed) || (step.SyncDirectory? && !step.succeeds)
    ensures Inv(start, s')
  {
    NoDiskEffect(s, step, s');
    NewStage(start, s, step.id, s'.writers[step.id].stage);
  }

  /** Rewriting a writer's own file touches no entry and no other writer's file. */
  lemma OwnFileLeavesOthersAlone(start: Fs, s: System, id: WriterId, fs: Fs, file: File)
    requires Inv(start, s) && id in s.writers && HasTemporary(s.writers[id].stage)
    requires fs == s.fs.(files := s.fs.files[s.writers[id].inode := file])
    ensures LeavesOthersAlone(s, id, fs) && FilesKept(start, fs) && InvisibleAtPaths(s.pid, s.fs, fs)
    ensures Visible(fs) == Visible(s.fs)
  {
    assert WriterInv(start, s, s.writers[id]);
    assert forall k :: 0 <= k < |fs.pending| ==> (GoodOp(s.fs, s.fs.pending[k]) ==> GoodOp(fs, fs.pending[k]));
    forall path
      ensures SameAt(s.fs, fs, path)
    {
      assert forall entry :: IsCandidate(fs, path, entry) ==> IsCandidate(s.fs, path, entry);
    }
    forall other | other in s.writers && other != id
      ensures LeavesAlone(s.fs, fs, s.writers[other])
    {
      assert Apart(s.writers[id], s.writers[other]);
    }
  }

  lemma NewFile(start: Fs, s: System, id: WriterId, stage: Stage, file: File)
    requires Inv(start, s) && id in s.writers && HasTemporary(s.writers[id].stage) && HasTemporary(stage)
    requires stage == Written ==> file.data == s.writers[id].contents
    requires stage == Synced ==> file == File(s.writers[id].contents, true)
    ensures var w := s.writers[id];
            Inv(start, Moved(s, id, w.(stage := stage), s.fs.(files := s.fs.files[w.inode := file])))
  {
    var w := s.writers[id];
    var fs := s.fs.(files := s.fs.files[w.inode := file]);
    assert WriterInv(start, s, w);
    OwnFileLeavesOthersAlone(start, s, id, fs, file);
    QuietStep(start, s, id, w.(stage := stage), fs);
  }

  lemma FileStep(start: Fs, s: System, step: Step, s': System)
    requires Inv(start, s) && Next(s, step, s')
    requires step.WritePart? || step.WriteAll? || step.SyncData?
    ensures Inv(start, s')
  {
    var w := s.writers[step.id];
    assert WriterInv(start, s, w);
    NewFile(start, s, step.id, s'.writers[step.id].stage, s'.fs.files[w.inode]);
  }

  /** Neither counter matters to the invariant, as long as the ranks given out stay below it. */
  lemma CountersIrrelevant(start: Fs, s: System, sequence: nat, replacements: nat)
    requires Inv(start, s) && s.replacements <= replacements
    ensures Inv(start, s.(sequence := sequence, replacements := replacements))
  {
    var s' := s.(sequence := sequence, replacements := replacements);
    forall path | !IsTemporary(s'.pid, path)
      ensures PathInv(start, s', path)
    {
      assert PathInv(start, s, path);
      PathKept(start, s, s', path);
    }
    forall id | id in s'.writers
      ensures WriterInv(start, s', s'.writers[id])
    {
      assert WriterInv(start, s, s.writers[id]);
    }
  }

  lemma CreateAt(fs: Fs, temporary: Path, path: Path)
    requires Sound(fs) && temporary != path
    ensures Sound(Create(fs, temporary)) && SameAt(fs, Create(fs, temporary), path)
    ensures Entry(Visible(Create(fs, temporary)), temporary) == Some(fs.nextInode)
  {
  }

  lemma CreateIsInvisible(pid: nat, fs: Fs, temporary: Path)
    requires Sound(fs) && IsTemporary(pid, temporary)
    ensures InvisibleAtPaths(pid, fs, Create(fs, temporary))
  {
  }

  /** A new temporary name is unused, so it is no other writer's. */
  lemma CreateLeavesOthersAlone(start: Fs, s: System, id: WriterId, temporary: Path)
    requires Inv(start, s) && temporary !in Visible(s.fs) && Sound(Create(s.fs, temporary))
    ensures LeavesOthersAlone(s, id, Create(s.fs, temporary))
  {
  }

  lemma DrawnNameIsTemporary(path: Path, pid: nat, sequence: nat)
    ensures IsTemporary(pid, TempPath(path, pid, sequence)) && TempPath(path, pid, sequence).dir == path.dir
  {
  }

  lemma DrawStep(start: Fs, s: System, step: Step, s': System)
    requires Inv(start, s) && Next(s, step, s') && step.Draw?
    ensures Inv(start, s')
  {
    assert s' == Moved(s, step.id, s.writers[step.id].(stage := Drawn(s.sequence % U64_SIZE)), s.fs)
                   .(sequence := s.sequence + 1);
    NewStageAndSequence(start, s, step.id, Drawn(s.sequence % U64_SIZE), s.sequence + 1);
  }

  lemma NewStageAndSequence(start: Fs, s: System, id: WriterId, stage: Stage, n: nat)
    requires Inv(start, s) && id in s.writers && s.writers[id].stage == Opening && stage.Drawn?
    ensures Inv(start, Moved(s, id, s.writers[id].(stage := stage), s.fs).(sequence := n))
  {
    NewStage(start, s, id, stage);
    CountersIrrelevant(start, Moved(s, id, s.writers[id].(stage := stage), s.fs), n, s.replacements);
  }

  lemma ClaimStep(start: Fs, s: System, step: Step, s': System)
    requires Inv(start, s) && Next(s, step, s') && step.Claim?
    ensures Inv(start, s')
  {
    var id := step.id;
    var w := s.writers[id];
    var temporary := TempPath(w.path, s.pid, w.stage.number);
    DrawnNameIsTemporary(w.path, s.pid, w.stage.number);
    if temporary in Visible(s.fs) {
      NewStage(start, s, id, Opening);
    } else {
      ClaimedName(start, s, id, temporary);
    }
  }

  lemma ClaimedName(start: Fs, s: System, id: WriterId, temporary: Path)
    requires Inv(start, s) && id in s.writers && s.writers[id].stage.Drawn?
    requires temporary !in Visible(s.fs) && temporary.dir == s.writers[id].path.dir && IsTemporary(s.pid, temporary)
    ensures var w := s.writers[id].(stage := Opened, temporary := temporary, inode := s.fs.nextInode);
            Inv(start, Moved(s, id, w, Create(s.fs, temporary)))
  {
    var w := s.writers[id];
    var fs := Create(s.fs, temporary);
    assert WriterInv(start, s, w);
    CreateAt(s.fs, temporary, w.path);
    CreateIsInvisible(s.pid, s.fs, temporary);
    CreateLeavesOthersAlone(start, s, id, temporary);
    QuietStep(start, s, id, w.(stage := Opened, temporary := temporary, inode := s.fs.nextInode), fs);
  }

  lemma CleanUpStep(start: Fs, s: System, step: Step, s': System)
    requires Inv(start, s) && Next(s, step, s') && step.CleanUp? && step.removed
    ensures Inv(start, s')
  {
    var w := s.writers[step.id];
    assert s' == Moved(s, step.id, w.(stage := Failed), Remove(s.fs, w.temporary));
    TemporaryRemoved(start, s, step.id);
  }

  lemma TemporaryRemoved(start: Fs, s: System, id: WriterId)
    requires Inv(start, s) && id in s.writers && s.writers[id].stage == Failing
    ensures var w := s.writers[id]; Inv(start, Moved(s, id, w.(stage := Failed), Remove(s.fs, w.temporary)))
  {
    var w := s.writers[id];
    assert WriterInv(start, s, w);
    forall other | other in s.writers && other != id && HasTemporary(s.writers[other].stage)
      ensures s.writers[other].temporary != w.temporary
    {
      OtherTemporary(start, s, id, other);
    }
    RemovalIsQuiet(s, id, w.temporary);
    QuietStep(start, s, id, w.(stage := Failed), Remove(s.fs, w.temporary));
  }

  lemma RemovalIsQuiet(s: System, id: WriterId, temporary: Path)
    requires Sound(s.fs) && IsTemporary(s.pid, temporary)
    requires forall other :: other in s.writers && other != id && HasTemporary(s.writers[other].stage) ==>
               s.writers[other].temporary != temporary
    ensures LeavesOthersAlone(s, id, Remove(s.fs, temporary))
    ensures InvisibleAtPaths(s.pid, s.fs, Remove(s.fs, temporary))
  {
    var fs := Remove(s.fs, temporary);
    RemoveStaysSound(s.fs, temporary);
    forall path | path != temporary
      ensures SameAt(s.fs, fs, path)
    {
      AppendedOp(s.fs, Unlink(temporary), path);
    }
  }

  /** No two writers hold the same temporary path. */
  lemma OtherTemporary(start: Fs, s: System, id: WriterId, other: WriterId)
    requires Inv(start, s) && id in s.writers && other in s.writers && id != other
    ensures HasTemporary(s.writers[id].stage) && HasTemporary(s.writers[other].stage) ==>
              s.writers[id].temporary != s.writers[other].temporary
  {
    assert Apart(s.writers[id], s.writers[other]);
  }

  /** Moving one writer's temporary file over its destination touches no other writer's. */
  lemma MoveLeavesOthersAlone(start: Fs, s: System, id: WriterId, fs: Fs)
    requires Inv(start, s) && id in s.writers && s.writers[id].stage == Synced
    requires fs == s.fs.(pending := s.fs.pending + [Move(s.writers[id].temporary, s.writers[id].path, s.writers[id].inode)])
    ensures LeavesOthersAlone(s, id, fs)
  {
    var w := s.writers[id];
    assert WriterInv(start, s, w);
    forall k | 0 <= k < |fs.pending|
      ensures GoodOp(fs, fs.pending[k])
    {
      assert k < |s.fs.pending| ==> GoodOp(s.fs, s.fs.pending[k]);
    }
    forall other | other in s.writers && other != id
      ensures LeavesAlone(s.fs, fs, s.writers[other])
    {
      assert WriterInv(start, s, s.writers[other]);
      OtherTemporary(start, s, id, other);
      AppendedOp(s.fs, Move(w.temporary, w.path, w.inode), s.writers[other].temporary);
    }
  }

  /** A file still to be moved into place is not the one at its destination. */
  lemma DestinationIsAnother(start: Fs, s: System, id: WriterId)
    requires Inv(start, s) && id in s.writers && s.writers[id].stage == Synced
    ensures Entry(Visible(s.fs), s.writers[id].path) != Some(s.writers[id].inode)
  {
    var w := s.writers[id];
    assert WriterInv(start, s, w);
    forall other | ReplacedAt(s, other, w.path)
      ensures s.writers[other].inode != w.inode
    {
      assert Apart(w, s.writers[other]);
    }
    NewFileIsNotVisible(start, s, w.path, w.inode);
  }

  lemma NewFileIsNotVisible(start: Fs, s: System, path: Path, inode: Inode)
    requires PathInv(start, s, path) && Sound(start) && start.nextInode <= inode
    requires forall other :: ReplacedAt(s, other, path) ==> s.writers[other].inode != inode
    ensures Entry(Visible(s.fs), path) != Some(inode)
  {
    var entry := Entry(Visible(s.fs), path);
    VisibleIsCandidate(s.fs, path);
    if entry.Some? && IsCandidate(start, path, entry) {
      CandidateFileExists(start, path, entry);
    }
  }

  lemma ReplaceStep(start: Fs, s: System, step: Step, s': System)
    requires Inv(start, s) && Next(s, step, s') && step.Replace?
    ensures Inv(start, s')
  {
    var w := s.writers[step.id];
    assert WriterInv(start, s, w);
    DestinationIsAnother(start, s, step.id);
    assert RanksLast(s, s.replacements) by {
      assert forall id :: id in s.writers ==> WriterInv(start, s, s.writers[id]);
    }
    var counted := s.(replacements := s.replacements + 1);
    CountersIrrelevant(start, s, s.sequence, s.replacements + 1);
    assert s' == Moved(counted, step.id, w.(stage := Replaced, rank := s.replacements), s'.fs);
    NewReplacement(start, counted, step.id, s.replacements, s'.fs);
  }

  lemma NewReplacement(start: Fs, s: System, id: WriterId, rank: nat, fs: Fs)
    requires Inv(start, s) && id in s.writers && s.writers[id].stage == Synced
    requires RanksLast(s, rank) && rank < s.replacements
    requires fs == s.fs.(pending := s.fs.pending + [Move(s.writers[id].temporary, s.writers[id].path, s.writers[id].inode)])
    ensures Inv(start, Moved(s, id, s.writers[id].(stage := Replaced, rank := rank), fs))
  {
    var w := s.writers[id];
    assert WriterInv(start, s, w);
    MoveLeavesOthersAlone(start, s, id, fs);
    WritersKept(start, s, id, w.(stage := Replaced, rank := rank), fs);
    forall path | !IsTemporary(s.pid, path)
      ensures PathInv(start, Moved(s, id, w.(stage := Replaced, rank := rank), fs), path)
    {
      ReplaceAt(start, s, id, rank, fs, path);
    }
  }

  lemma ReplaceAt(start: Fs, s: System, id: WriterId, rank: nat, fs: Fs, path: Path)
    requires id in s.writers && s.writers[id].stage == Synced && s.writers[id].temporary != path
    requires PathInv(start, s, path) && RanksLast(s, rank)
    requires fs == s.fs.(pending := s.fs.pending + [Move(s.writers[id].temporary, s.writers[id].path, s.writers[id].inode)])
    ensures PathInv(start, Moved(s, id, s.writers[id].(stage := Replaced, rank := rank), fs), path)
  {
    var w := s.writers[id];
    AppendedOp(s.fs, Move(w.temporary, w.path, w.inode), path);
    if path == w.path {
      ReplacedPath(start, s, id, rank, fs);
    } else {
      PathKept(start, s, Moved(s, id, w.(stage := Replaced, rank := rank), fs), path);
    }
  }

  lemma ReplacedPath(start: Fs, s: System, id: WriterId, rank: nat, fs: Fs)
    requires id in s.writers && s.writers[id].stage == Synced
    requires PathInv(start, s, s.writers[id].path) && RanksLast(s, rank)
    requires var w := s.writers[id];
             && Entry(Visible(fs), w.path) == Some(w.inode)
             && forall entry :: IsCandidate(fs, w.path, entry) ==> IsCandidate(s.fs, w.path, entry) || entry == Some(w.inode)
    ensures PathInv(start, Moved(s, id, s.writers[id].(stage := Replaced, rank := rank), fs), s.writers[id].path)
  {
    var w := s.writers[id];
    var s' := Moved(s, id, w.(stage := Replaced, rank := rank), fs);
    SameReplacementsSamePuts(s, s', w.path);
    assert forall older: nat :: older <= rank ==> PutSince(s', w.path, Some(w.inode), older) by {
      assert ReplacedAt(s', id, w.path);
    }
    forall other | ReplacedAt(s', other, w.path)
      ensures other == id || (ReplacedAt(s, other, w.path) && s.writers[other] == s'.writers[other])
      ensures s'.writers[other].rank <= rank
    {
    }
  }

  lemma SyncDirAt(fs: Fs, dir: string, path: Path)
    requires Sound(fs)
    ensures SyncedAt(fs, SyncDir(fs, dir), dir, path)
  {
    if path.dir == dir {
      SyncDirPins(fs, path);
      VisibleIsCandidate(fs, path);
    } else {
      SyncDirElsewhere(fs, dir, path);
    }
  }

  lemma SyncDirLeavesOthersAlone(s: System, id: WriterId, dir: string)
    requires Sound(s.fs)
    ensures LeavesOthersAlone(s, id, SyncDir(s.fs, dir))
  {
    SyncDirStaysSound(s.fs, dir);
    forall other | other in s.writers && other != id
      ensures LeavesAlone(s.fs, SyncDir(s.fs, dir), s.writers[other])
    {
      SyncDirAt(s.fs, dir, s.writers[other].temporary);
    }
  }

  lemma SyncDirectoryStep(start: Fs, s: System, step: Step, s': System)
    requires Inv(start, s) && Next(s, step, s') && step.SyncDirectory? && step.succeeds
    ensures Inv(start, s')
  {
    var id := step.id;
    var w := s.writers[id];
    assert WriterInv(start, s, w);
    SyncDirLeavesOthersAlone(s, id, w.path.dir);
    WritersKept(start, s, id, s'.writers[id], s'.fs);
    forall path | !IsTemporary(s.pid, path)
      ensures PathInv(start, s', path)
    {
      SyncDirectoryAt(start, s, id, path);
    }
  }

  lemma SyncDirectoryAt(start: Fs, s: System, id: WriterId, path: Path)
    requires id in s.writers && s.writers[id].stage == Replaced && Sound(s.fs) && PathInv(start, s, path)
    ensures var w := s.writers[id];
            PathInv(start, Moved(s, id, w.(stage := Succeeded), SyncDir(s.fs, w.path.dir)), path)
  {
    var w := s.writers[id];
    var fs := SyncDir(s.fs, w.path.dir);
    SyncDirAt(s.fs, w.path.dir, path);
    if path == w.path {
      PinnedPath(start, s, id, fs);
    } else {
      PathKept(start, s, Moved(s, id, w.(stage := Succeeded), fs), path);
    }
  }

  /** Nothing new shows at `path`; within the synced directory only what is visible can survive. */
  ghost predicate SyncedAt(fs: Fs, fs': Fs, dir: string, path: Path) {
    && SameAt(fs, fs', path)
    && (path.dir == dir ==> forall entry :: IsCandidate(fs', path, entry) ==> entry == Entry(Visible(fs), path))
  }

  lemma PinnedPath(start: Fs, s: System, id: WriterId, fs: Fs)
    requires id in s.writers && s.writers[id].stage == Replaced
    requires PathInv(start, s, s.writers[id].path)
    requires SyncedAt(s.fs, fs, s.writers[id].path.dir, s.writers[id].path)
    ensures PathInv(start, Moved(s, id, s.writers[id].(stage := Succeeded), fs), s.writers[id].path)
  {
    var w := s.writers[id];
    var s' := Moved(s, id, w.(stage := Succeeded), fs);
    SameReplacementsSamePuts(s, s', w.path);
    forall other | ReplacedAt(s', other, w.path)
      ensures ReplacedAt(s, other, w.path) && s.writers[other].rank == s'.writers[other].rank
    {
    }
  }

  lemma BeginStep(start: Fs, s: System, step: Step, s': System)
    requires Inv(start, s) && Next(s, step, s') && step.Begin?
    ensures Inv(start, s')
  {
    var w := Writer(step.path, step.contents, Opening, step.path, 0, 0);
    assert s' == Moved(s, step.id, w, s.fs);
    WriterAdded(start, s, step.id, w);
  }

  lemma WriterAdded(start: Fs, s: System, id: WriterId, w: Writer)
    requires Inv(start, s) && id !in s.writers && w.stage == Opening && !IsTemporary(s.pid, w.path)
    ensures Inv(start, Moved(s, id, w, s.fs))
  {
    var s' := Moved(s, id, w, s.fs);
    forall other | other in s'.writers
      ensures WriterInv(start, s', s'.writers[other])
    {
      assert other in s.writers ==> WriterInv(start, s, s.writers[other]);
    }
    forall path | !IsTemporary(s.pid, path)
      ensures PathInv(start, s', path)
    {
      assert PathInv(start, s, path);
      BeginAt(start, s, id, w, path);
    }
  }

  lemma BeginAt(start: Fs, s: System, id: WriterId, w: Writer, path: Path)
    requires id !in s.writers && w.stage == Opening && PathInv(start, s, path)
    ensures PathInv(start, Moved(s, id, w, s.fs), path)
  {
    PathKept(start, s, Moved(s, id, w, s.fs), path);
  }

  lemma NextKeepsInv(start: Fs, s: System, step: Step, s': System)
    requires Inv(start, s) && Next(s, step, s')
    ensures Inv(start, s')
  {
    match step
    case Begin(_, _, _) => BeginStep(start, s, step, s');
    case Draw(_) => DrawStep(start, s, step, s');
    case Claim(_) => ClaimStep(start, s, step, s');
    case WritePart(_, _) => FileStep(start, s, step, s');
    case WriteAll(_) => FileStep(start, s, step, s');
    case SyncData(_) => FileStep(start, s, step, s');
    case Replace(_) => ReplaceStep(start, s, step, s');
    case CleanUp(_, removed) =>
      if removed {
        CleanUpStep(start, s, step, s');
      } else {
        NoDiskStep(start, s, step, s');
      }
    case SyncDirectory(_, succeeds) =>
      if succeeds {
        SyncDirectoryStep(start, s, step, s');
      } else {
        NoDiskStep(start, s, step, s');
      }
    case GiveUp(_) => NoDiskStep(start, s, step, s');
    case Fail(_) => NoDiskStep(start, s, step, s');
  }

  // ----- Whole runs -----

  ghost predicate IsRun(states: seq<System>, steps: seq<Step>) {
    && |states| == |steps| + 1
    && Init(states[0])
    && forall i :: 0 <= i < |steps| ==> Next(states[i], steps[i], states[i + 1])
  }

  lemma {:induction false} RunKeepsInv(states: seq<System>, steps: seq<Step>, i: nat)
    requires IsRun(states, steps) && i < |states|
    ensures Inv(states[0].fs, states[i]) && states[i].pid == states[0].pid
  {
    if i > 0 {
      RunKeepsInv(states, steps, i - 1);
      NextKeepsInv(states[0].fs, states[i - 1], steps[i - 1], states[i]);
    }
  }

  /** Writer `id` replaced `path`, with `contents`. */
  ghost predicate WroteAt(s: System, id: WriterId, path: Path, contents: Bytes) {
    ReplacedAt(s, id, path) && s.writers[id].contents == contents
  }

  lemma PutFileReads(start: Fs, s: System, path: Path, entry: Option<Inode>, rank: nat, outcome: Option<Bytes>)
    returns (id: WriterId)
    requires Inv(start, s) && PutSince(s, path, entry, rank) && MayRead(s.fs, entry, outcome)
    ensures outcome.Some? && WroteAt(s, id, path, outcome.value) && rank <= s.writers[id].rank
  {
    id :| ReplacedAt(s, id, path) && entry == Some(s.writers[id].inode) && rank <= s.writers[id].rank;
    assert WriterInv(start, s, s.writers[id]);
  }

  /**
   Whenever the machine crashes, a destination holds what a crash before the run could have
   left there, or exactly the full contents of one of the writes to it. Once a write has
   returned success, it holds the contents of that write or of a later one for certain.
   */
  lemma CrashLeavesOldOrFullyWritten(states: seq<System>, steps: seq<Step>, i: nat, path: Path, outcome: Option<Bytes>)
    requires IsRun(states, steps) && i < |states| && !IsTemporary(states[0].pid, path)
    requires MayHoldAfterCrash(states[i].fs, path, outcome)
    ensures || MayHoldAfterCrash(states[0].fs, path, outcome)
            || (outcome.Some? && exists id :: WroteAt(states[i], id, path, outcome.value))
    ensures forall id :: ReplacedAt(states[i], id, path) && states[i].writers[id].stage == Succeeded ==>
              outcome.Some? && OwnOrLater(states[i], id, outcome.value)
  {
    var start, s := states[0].fs, states[i];
    RunKeepsInv(states, steps, i);
    assert PathInv(start, s, path);
    CrashOutcomes(s.fs, path, outcome);
    var entry :| IsCandidate(s.fs, path, entry) && MayRead(s.fs, entry, outcome);
    if PutSince(s, path, entry, 0) {
      var id := PutFileReads(start, s, path, entry, 0, outcome);
    } else {
      CarriedOver(start, s.fs, path, entry, outcome);
    }
    forall id | ReplacedAt(s, id, path) && s.writers[id].stage == Succeeded
      ensures outcome.Some? && OwnOrLater(s, id, outcome.value)
    {
      SuccessSurvivesCrashes(states, steps, i, id, outcome);
    }
  }

  /** `contents` are those of writer `id`, or of one that replaced the same path after it. */
  ghost predicate OwnOrLater(s: System, id: WriterId, contents: Bytes)
    requires id in s.writers
  {
    var w := s.writers[id];
    || contents == w.contents
    || exists later :: WroteAt(s, later, w.path, contents) && w.rank < s.writers[later].rank
  }

  lemma CandidateSince(start: Fs, s: System, id: WriterId, path: Path, outcome: Option<Bytes>) returns (entry: Option<Inode>)
    requires Sound(s.fs) && PathInv(start, s, path) && ReplacedAt(s, id, path) && s.writers[id].stage == Succeeded
    requires MayHoldAfterCrash(s.fs, path, outcome)
    ensures PutSince(s, path, entry, s.writers[id].rank) && MayRead(s.fs, entry, outcome)
  {
    CrashOutcomes(s.fs, path, outcome);
    entry :| IsCandidate(s.fs, path, entry) && MayRead(s.fs, entry, outcome);
  }

  lemma SurvivingWriter(start: Fs, s: System, id: WriterId, outcome: Option<Bytes>) returns (writer: WriterId)
    requires Inv(start, s) && id in s.writers && s.writers[id].stage == Succeeded
    requires MayHoldAfterCrash(s.fs, s.writers[id].path, outcome)
    ensures outcome.Some? && WroteAt(s, writer, s.writers[id].path, outcome.value)
    ensures s.writers[id].rank <= s.writers[writer].rank
  {
    var w := s.writers[id];
    assert WriterInv(start, s, w);
    var entry := CandidateSince(start, s, id, w.path, outcome);
    writer := PutFileReads(start, s, w.path, entry, w.rank, outcome);
  }

  /**
   An acknowledged write is never lost: once writer `id` has returned success, a crash leaves
   its own contents, or those of a writer that replaced the same path after it did. Never
   what was there before, nor what an earlier writer put there.
   */
  lemma SuccessSurvivesCrashes(states: seq<System>, steps: seq<Step>, i: nat, id: WriterId, outcome: Option<Bytes>)
    requires IsRun(states, steps) && i < |states|
    requires id in states[i].writers && states[i].writers[id].stage == Succeeded
    requires MayHoldAfterCrash(states[i].fs, states[i].writers[id].path, outcome)
    ensures outcome.Some? && OwnOrLater(states[i], id, outcome.value)
  {
    var start, s := states[0].fs, states[i];
    var w := s.writers[id];
    RunKeepsInv(states, steps, i);
    var writer := SurvivingWriter(start, s, id, outcome);
    assert writer != id ==> Apart(w, s.writers[writer]);
  }

  /** Running programs see the contents of the latest replacement, synced directory or not. */
  lemma LatestReplacementIsVisible(states: seq<System>, steps: seq<Step>, i: nat, id: WriterId)
    requires IsRun(states, steps) && i < |states|
    requires id in states[i].writers && ReplacedAt(states[i], id, states[i].writers[id].path)
    requires forall other :: ReplacedAt(states[i], other, states[i].writers[id].path) ==>
               states[i].writers[other].rank <= states[i].writers[id].rank
    ensures Read(states[i].fs, states[i].writers[id].path) == Some(states[i].writers[id].contents)
  {
    var start, s := states[0].fs, states[i];
    var w := s.writers[id];
    RunKeepsInv(states, steps, i);
    assert WriterInv(start, s, w);
    forall other | ReplacedAt(s, other, w.path) && w.rank <= s.writers[other].rank
      ensures other == id
    {
      assert other != id ==> Apart(w, s.writers[other]);
    }
    LatestIsVisible(start, s, id);
  }

  lemma LatestIsVisible(start: Fs, s: System, id: WriterId)
    requires id in s.writers && ReplacedAt(s, id, s.writers[id].path) && PathInv(start, s, s.writers[id].path)
    requires forall other :: ReplacedAt(s, other, s.writers[id].path) && s.writers[id].rank <= s.writers[other].rank ==> other == id
    ensures Entry(Visible(s.fs), s.writers[id].path) == Some(s.writers[id].inode)
  {
  }

  /** Writers at work at the same time never share a temporary path. */
  lemma TemporaryPathsAreExclusive(states: seq<System>, steps: seq<Step>, i: nat, id: WriterId, other: WriterId)
    requires IsRun(states, steps) && i < |states|
    requires id in states[i].writers && other in states[i].writers && id != other
    requires HasTemporary(states[i].writers[id].stage) && HasTemporary(states[i].writers[other].stage)
    ensures states[i].writers[id].temporary != states[i].writers[other].temporary
    ensures states[i].writers[id].inode != states[i].writers[other].inode
  {
    RunKeepsInv(states, steps, i);
    OtherTemporary(states[0].fs, states[i], id, other);
    assert Apart(states[i].writers[id], states[i].writers[other]);
  }
}
