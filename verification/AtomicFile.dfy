/**
 Durable atomic file replacement: write a temporary file in the destination's directory,
 sync it, rename it over the destination, sync the directory. Every step may fail, and
 every state in between may be the last one before a crash.
 */
module AtomicFile {
  import opened Support
  import opened Text
  import opened FileSystem

  const MAX_TEMPORARY_FILE_ATTEMPTS: nat := 128
  const U64_SIZE: nat := 0x1_0000_0000_0000_0000

  /** The step that failed; the source reports an `io::Error`. */
  datatype Failure =
    | NoFileName
    | CreateDirectory
    | OpenTemporary
    | AttemptsExhausted
    | WriteFile
    | SyncFileData
    | BeforeReplace
    | Replace
    | SyncDirectory
    | DifferentDirectories
    | OpenSource
    | RemoveFile

  /**
   Which system calls fail. `open` holds the attempts that fail for another reason than an
   existing file, `write` the part of the data written before a failing write.
   */
  datatype Faults = Faults(
    createDirectory: bool,
    open: set<nat>,
    write: Option<Bytes>,
    sync: bool,
    beforeReplace: bool,
    rename: bool,
    syncDirectory: bool,
    cleanup: bool)

  function TempName(file: string, pid: nat, sequence: nat): string {
    "." + file + "." + Decimal(pid) + "." + Decimal(sequence) + ".tmp"
  }

  function TempPath(path: Path, pid: nat, sequence: nat): Path {
    Path(path.dir, TempName(path.name, pid, sequence))
  }

  lemma DotEndsEmptySegment(a: string, d: string)
    requires '.' !in d
    ensures (a + "." + d)[|a| + |d|] == '.' <==> d == ""
  {
  }

  lemma {:induction false} SameLastSegment(a: string, d: string, b: string, e: string)
    requires '.' !in d && '.' !in e && a + "." + d == b + "." + e
    ensures d == e
    decreases |d|
  {
    var s, t := a + "." + d, b + "." + e;
    DotEndsEmptySegment(a, d);
    DotEndsEmptySegment(b, e);
    if d != "" && e != "" {
      var d', e' := d[..|d| - 1], e[..|e| - 1];
      assert s[|s| - 1] == d[|d| - 1] && t[|t| - 1] == e[|e| - 1];
      assert s[..|s| - 1] == a + "." + d' && t[..|t| - 1] == b + "." + e';
      SameLastSegment(a, d', b, e');
      assert d == d' + [d[|d| - 1]] && e == e' + [e[|e| - 1]];
    }
  }

  /** A temporary name tells the file, the process and the sequence number it was drawn for. */
  lemma TempNamesDiffer(file: string, other: string, pid: nat, otherPid: nat, m: nat, n: nat)
    requires TempName(file, pid, m) == TempName(other, otherPid, n)
    ensures file == other && pid == otherPid && m == n
  {
    var a, b := "." + file + "." + Decimal(pid), "." + other + "." + Decimal(otherPid);
    var s, t := TempName(file, pid, m), TempName(other, otherPid, n);
    assert s[..|s| - 4] == a + "." + Decimal(m);
    assert t[..|t| - 4] == b + "." + Decimal(n);
    SameLastSegment(a, Decimal(m), b, Decimal(n));
    ReadDecimalOfDecimal(m);
    ReadDecimalOfDecimal(n);
    assert (a + "." + Decimal(m))[..|a|] == a && (b + "." + Decimal(n))[..|b|] == b;
    SameLastSegment("." + file, Decimal(pid), "." + other, Decimal(otherPid));
    ReadDecimalOfDecimal(pid);
    ReadDecimalOfDecimal(otherPid);
    assert a[1..|file| + 1] == file && b[1..|other| + 1] == other;
  }

  // ----- What each step does to a path and to what may survive there -----

  /** From `start` on, nothing about `path` or about older files has changed. */
  ghost predicate Undisturbed(start: Fs, fs: Fs, path: Path) {
    && Sound(start) && Sound(fs) && start.nextInode <= fs.nextInode
    && Entry(Visible(fs), path) == Entry(Visible(start), path)
    && (forall entry :: IsCandidate(fs, path, entry) ==> IsCandidate(start, path, entry))
    && (forall inode :: inode in start.files ==> inode in fs.files && fs.files[inode] == start.files[inode])
  }

  /** `path` now shows file `inode`, synced with `contents`; a crash may still uncover what was there. */
  ghost predicate Supplanted(start: Fs, fs: Fs, path: Path, inode: Inode, contents: Bytes) {
    && Sound(start) && Sound(fs)
    && Entry(Visible(fs), path) == Some(inode)
    && inode in fs.files && fs.files[inode] == File(contents, true)
    && (forall entry :: IsCandidate(fs, path, entry) ==> entry == Some(inode) || IsCandidate(start, path, entry))
    && (forall i :: i in start.files ==> i in fs.files && fs.files[i] == start.files[i])
  }

  /** A crash now leaves `path` as a crash at `start` could have, or holding exactly `contents`. */
  ghost predicate CrashSafe(start: Fs, fs: Fs, path: Path, contents: Bytes) {
    CrashLeaves(start, fs, path, Some(contents))
  }

  /** A crash now leaves `path` as a crash at `start` could have, or exactly as intended. */
  ghost predicate CrashLeaves(start: Fs, fs: Fs, path: Path, intended: Option<Bytes>) {
    forall outcome :: MayHoldAfterCrash(fs, path, outcome) ==>
      MayHoldAfterCrash(start, path, outcome) || outcome == intended
  }

  lemma CarriedOver(start: Fs, fs: Fs, path: Path, entry: Option<Inode>, outcome: Option<Bytes>)
    requires Sound(start) && IsCandidate(start, path, entry) && MayRead(fs, entry, outcome)
    requires forall inode :: inode in start.files ==> inode in fs.files && fs.files[inode] == start.files[inode]
    ensures MayHoldAfterCrash(start, path, outcome)
  {
    if entry.Some? {
      CandidateFileExists(start, path, entry);
    }
    assert MayRead(start, entry, outcome);
    CrashOutcomes(start, path, outcome);
  }

  lemma UndisturbedIsCrashSafe(start: Fs, fs: Fs, path: Path, contents: Bytes)
    requires Undisturbed(start, fs, path)
    ensures CrashSafe(start, fs, path, contents)
  {
    forall outcome | MayHoldAfterCrash(fs, path, outcome)
      ensures MayHoldAfterCrash(start, path, outcome)
    {
      CrashOutcomes(fs, path, outcome);
      var entry :| IsCandidate(fs, path, entry) && MayRead(fs, entry, outcome);
      CarriedOver(start, fs, path, entry, outcome);
    }
  }

  lemma SupplantedIsCrashSafe(start: Fs, fs: Fs, path: Path, inode: Inode, contents: Bytes)
    requires Supplanted(start, fs, path, inode, contents)
    ensures CrashSafe(start, fs, path, contents)
    ensures Read(fs, path) == Some(contents)
  {
    forall outcome | MayHoldAfterCrash(fs, path, outcome) && outcome != Some(contents)
      ensures MayHoldAfterCrash(start, path, outcome)
    {
      CrashOutcomes(fs, path, outcome);
      var entry :| IsCandidate(fs, path, entry) && MayRead(fs, entry, outcome);
      CarriedOver(start, fs, path, entry, outcome);
    }
  }

  /** Running programs see the same entries in both, except at `paths`. */
  ghost predicate OnlyAt(fs: Fs, fs': Fs, paths: set<Path>) {
    forall path :: path !in paths ==> Entry(Visible(fs'), path) == Entry(Visible(fs), path)
  }

  /** A file already visible is none that was made later. */
  lemma OlderThan(start: Fs, fs: Fs, path: Path, inode: Inode)
    requires Undisturbed(start, fs, path) && start.nextInode <= inode
    ensures Entry(Visible(fs), path) != Some(inode)
  {
    VisibleIsCandidate(start, path);
    if path in Visible(start) {
      CandidateFileExists(start, path, Entry(Visible(start), path));
    }
  }

  lemma SyncDirShowsNothing(fs: Fs, dir: string)
    requires Sound(fs)
    ensures OnlyAt(fs, SyncDir(fs, dir), {})
  {
    forall path
      ensures Entry(Visible(SyncDir(fs, dir)), path) == Entry(Visible(fs), path)
    {
      if path.dir == dir {
        SyncDirPins(fs, path);
      } else {
        SyncDirElsewhere(fs, dir, path);
      }
    }
  }

  /** Syncing a file only narrows what a crash may leave. */
  lemma SyncFileNarrows(fs: Fs, inode: Inode, path: Path, contents: Bytes)
    requires inode in fs.files
    ensures CrashSafe(fs, SyncFile(fs, inode), path, contents)
  {
    var after := SyncFile(fs, inode);
    forall outcome | MayHoldAfterCrash(after, path, outcome)
      ensures MayHoldAfterCrash(fs, path, outcome)
    {
      var survives, left :| CrashesTo(after, survives, left) && Read(left, path) == outcome;
      assert CrashesTo(fs, survives, left);
    }
  }

  lemma CreateShows(fs: Fs, path: Path)
    ensures OnlyAt(fs, Create(fs, path), {path})
  {
  }

  lemma RemoveShows(fs: Fs, path: Path)
    ensures OnlyAt(fs, Remove(fs, path), {path}) && path !in Visible(Remove(fs, path))
  {
  }

  lemma AppendedOp(fs: Fs, op: DirOp, path: Path)
    ensures var after := fs.(pending := fs.pending + [op]);
            && Entry(Visible(after), path) ==
               (if Touches(op, path) then EffectOn(op, path) else Entry(Visible(fs), path))
            && (forall entry :: IsCandidate(after, path, entry) <==>
                  IsCandidate(fs, path, entry) || (Touches(op, path) && entry == EffectOn(op, path)))
  {
  }

  lemma CreateElsewhere(start: Fs, fs: Fs, temporary: Path, path: Path)
    requires Undisturbed(start, fs, path) && temporary != path
    ensures Undisturbed(start, Create(fs, temporary), path)
    ensures Entry(Visible(Create(fs, temporary)), temporary) == Some(fs.nextInode)
  {
  }

  /** Changing a file younger than `start` disturbs nothing. */
  lemma FileChangeElsewhere(start: Fs, fs: Fs, inode: Inode, file: File, path: Path)
    requires Undisturbed(start, fs, path) && start.nextInode <= inode && inode in fs.files
    ensures Undisturbed(start, fs.(files := fs.files[inode := file]), path)
  {
  }

  lemma RemoveElsewhere(start: Fs, fs: Fs, temporary: Path, path: Path)
    requires Undisturbed(start, fs, path) && temporary != path
    ensures Undisturbed(start, Remove(fs, temporary), path)
  {
  }

  lemma RenameSupplants(start: Fs, fs: Fs, temporary: Path, path: Path, inode: Inode, contents: Bytes)
    requires Undisturbed(start, fs, path) && temporary != path && temporary.dir == path.dir
    requires Entry(Visible(fs), temporary) == Some(inode) && Entry(Visible(fs), path) != Some(inode)
    requires inode in fs.files && fs.files[inode] == File(contents, true)
    ensures Supplanted(start, Rename(fs, temporary, path), path, inode, contents)
    ensures Entry(Visible(Rename(fs, temporary, path)), temporary) == None
    ensures OnlyAt(fs, Rename(fs, temporary, path), {temporary, path})
  {
  }

  /** After every crash `path` reads as `outcome`, and it does so now. */
  ghost predicate Durably(fs: Fs, path: Path, outcome: Option<Bytes>) {
    && Read(fs, path) == outcome
    && forall other :: MayHoldAfterCrash(fs, path, other) <==> other == outcome
  }

  /** Once its directory is synced, a path whose visible file is synced survives every crash as it is. */
  lemma SyncDirMakesDurable(fs: Fs, path: Path)
    requires Sound(fs)
    requires path in Visible(fs) ==> Visible(fs)[path] in fs.files && fs.files[Visible(fs)[path]].synced
    ensures Sound(SyncDir(fs, path.dir))
    ensures Durably(SyncDir(fs, path.dir), path, Read(fs, path))
  {
    var after := SyncDir(fs, path.dir);
    SyncDirStaysSound(fs, path.dir);
    SyncDirPins(fs, path);
    forall outcome
      ensures MayHoldAfterCrash(after, path, outcome) <==> outcome == Read(fs, path)
    {
      CrashOutcomes(after, path, outcome);
      assert MayRead(after, Entry(Visible(fs), path), outcome) <==> outcome == Read(fs, path);
    }
  }

  /** The directory sync after a replacement makes it durable and shows nothing new. */
  lemma SyncPinsReplacement(start: Fs, fs: Fs, path: Path, inode: Inode, contents: Bytes)
    requires Supplanted(start, fs, path, inode, contents)
    ensures var pinned := SyncDir(fs, path.dir);
            && Sound(pinned) && Durably(pinned, path, Some(contents))
            && CrashSafe(start, pinned, path, contents) && OnlyAt(fs, pinned, {})
  {
    SyncDirMakesDurable(fs, path);
    SyncDirShowsNothing(fs, path.dir);
  }

  /** The path the `k`-th attempt tries when the counter stood at `sequence`; the counter wraps. */
  function AttemptPath(path: Path, pid: nat, sequence: nat, k: nat): (r: Path)
    ensures r.dir == path.dir
    ensures r.name == "." + path.name + "." + Decimal(pid) + "." + Decimal((sequence + k) % U64_SIZE) + ".tmp"
  {
    TempPath(path, pid, (sequence + k) % U64_SIZE)
  }

  /** The first `k` attempts all met an existing file. */
  ghost predicate TakenUpTo(fs: Fs, path: Path, pid: nat, sequence: nat, openFaults: set<nat>, k: nat) {
    forall j :: 0 <= j < k ==> j !in openFaults && AttemptPath(path, pid, sequence, j) in Visible(fs)
  }

  /** Attempt `k` is the one that finds an unused name. */
  ghost predicate ClaimsAt(fs: Fs, path: Path, pid: nat, sequence: nat, openFaults: set<nat>, k: nat) {
    && k < MAX_TEMPORARY_FILE_ATTEMPTS && TakenUpTo(fs, path, pid, sequence, openFaults, k)
    && k !in openFaults && AttemptPath(path, pid, sequence, k) !in Visible(fs)
  }

  /** Attempt `k` is the one that fails for another reason than an existing file. */
  ghost predicate OpenFailsAt(fs: Fs, path: Path, pid: nat, sequence: nat, openFaults: set<nat>, k: nat) {
    k < MAX_TEMPORARY_FILE_ATTEMPTS && TakenUpTo(fs, path, pid, sequence, openFaults, k) && k in openFaults
  }

  ghost predicate ClaimsSome(fs: Fs, path: Path, pid: nat, sequence: nat, openFaults: set<nat>) {
    path.name != "" && exists k :: ClaimsAt(fs, path, pid, sequence, openFaults, k)
  }

  lemma TempDiffers(path: Path, temporary: Path, pid: nat, sequence: nat)
    requires exists k :: 0 <= k < MAX_TEMPORARY_FILE_ATTEMPTS && temporary == AttemptPath(path, pid, sequence, k)
    ensures temporary != path && temporary.dir == path.dir
  {
  }

  lemma SoundIsUndisturbed(fs: Fs, path: Path)
    requires Sound(fs)
    ensures Undisturbed(fs, fs, path)
  {
  }

  lemma ClaimedSafely(start: Fs, temporary: Path, path: Path, contents: Bytes)
    requires Sound(start) && temporary != path
    ensures var fs := Create(start, temporary);
            && Undisturbed(start, fs, path) && CrashSafe(start, fs, path, contents)
            && OnlyAt(start, fs, {temporary}) && Entry(Visible(fs), temporary) == Some(start.nextInode)
  {
    SoundIsUndisturbed(start, path);
    CreateElsewhere(start, start, temporary, path);
    CreateShows(start, temporary);
    UndisturbedIsCrashSafe(start, Create(start, temporary), path, contents);
  }

  lemma TemporaryIsGone(start: Fs, claimedFs: Fs, fs: Fs, temporary: Path, path: Path)
    requires OnlyAt(start, claimedFs, {temporary}) && OnlyAt(claimedFs, fs, {temporary, path})
    requires temporary !in Visible(start) && temporary !in Visible(fs)
    ensures OnlyAt(start, fs, {path})
  {
  }

  /** No entry for `path`, on disk or pending, could survive a crash. */
  ghost predicate CannotComeBack(fs: Fs, path: Path) {
    forall entry :: IsCandidate(fs, path, entry) ==> entry == None
  }

  /** An absent path stays absent through every crash exactly when no entry for it could survive one. */
  lemma AbsentForGood(fs: Fs, path: Path)
    requires Sound(fs) && path !in Visible(fs)
    ensures Durably(fs, path, None) <==> CannotComeBack(fs, path)
  {
    VisibleIsCandidate(fs, path);
    forall entry | IsCandidate(fs, path, entry) && entry.Some?
      ensures MayHoldAfterCrash(fs, path, Some(fs.files[entry.value].data))
    {
      CandidateFileExists(fs, path, entry);
      var data := fs.files[entry.value].data;
      CrashOutcomes(fs, path, Some(data));
      assert MayRead(fs, entry, Some(data));
    }
    forall outcome
      ensures CannotComeBack(fs, path) ==> (MayHoldAfterCrash(fs, path, outcome) <==> outcome == None)
    {
      CrashOutcomes(fs, path, outcome);
      assert MayRead(fs, None, None);
    }
  }

  lemma RemovalIsCrashSafe(fs: Fs, path: Path)
    requires Sound(fs)
    ensures CrashLeaves(fs, Remove(fs, path), path, None)
  {
    var after := Remove(fs, path);
    RemoveStaysSound(fs, path);
    AppendedOp(fs, Unlink(path), path);
    forall outcome | MayHoldAfterCrash(after, path, outcome) && outcome != None
      ensures MayHoldAfterCrash(fs, path, outcome)
    {
      CrashOutcomes(after, path, outcome);
      var entry :| IsCandidate(after, path, entry) && MayRead(after, entry, outcome);
      CarriedOver(fs, after, path, entry, outcome);
    }
  }

  /** Renaming a synced file puts its contents at the target, where a crash may still undo it. */
  lemma MovedOver(fs: Fs, source: Path, target: Path, inode: Inode)
    requires Sound(fs) && source.dir == target.dir && Entry(Visible(fs), source) == Some(inode)
    requires inode in fs.files && fs.files[inode].synced
    ensures var after, contents := Rename(fs, source, target), fs.files[inode].data;
            && Sound(after) && after.files == fs.files && CrashSafe(fs, after, target, contents)
            && Read(after, target) == Some(contents) && OnlyAt(fs, after, {source, target})
            && Entry(Visible(after), target) == Some(inode)
            && Entry(Visible(after), source) == if Entry(Visible(fs), target) == Some(inode) then Some(inode) else None
  {
    if Entry(Visible(fs), target) != Some(inode) {
      SoundIsUndisturbed(fs, target);
      RenameSupplants(fs, fs, source, target, inode, fs.files[inode].data);
      SupplantedIsCrashSafe(fs, Rename(fs, source, target), target, inode, fs.files[inode].data);
    }
  }

  // ----- The operations -----

  /**
   One process's view of the disk. `sequence` counts the names drawn from the atomic
   counter, which yields it modulo 2^64. `trace` lists every state the disk goes through.
   */
  class AtomicFiles {
    const pid: nat
    var fs: Fs
    var sequence: nat
    ghost var trace: seq<Fs>

    constructor (pid: nat, fs: Fs)
      requires Sound(fs)
      ensures Sound(this.fs) && this.fs == fs && this.pid == pid && sequence == 0 && trace == [fs]
    {
      this.pid := pid;
      this.fs := fs;
      sequence := 0;
      trace := [fs];
    }

    /** The recorded history ends in the present state. */
    ghost predicate Recorded()
      reads this
    {
      trace != [] && trace[|trace| - 1] == fs
    }

    /** Every state recorded from position `from` on is crash-safe for `path`. */
    ghost predicate SafeSince(start: Fs, from: nat, path: Path, contents: Bytes)
      reads this
    {
      && from <= |trace|
      && forall k :: from <= k < |trace| ==> CrashSafe(start, trace[k], path, contents)
    }

    /** The file system takes its next state, which a crash may make the last. */
    method Advance(ghost start: Fs, ghost from: nat, ghost path: Path, ghost contents: Bytes, next: Fs)
      requires SafeSince(start, from, path, contents) && CrashSafe(start, next, path, contents)
      modifies this`fs, this`trace
      ensures fs == next && trace == old(trace) + [next] && SafeSince(start, from, path, contents)
    {
      fs := next;
      trace := trace + [next];
    }

    /** `create_temporary_file`: claims an unused name, trying at most 128 sequence numbers. */
    method CreateTemporaryFile(path: Path, openFaults: set<nat>) returns (result: Result<Path, Failure>)
      requires Sound(fs)
      modifies this
      ensures result == Err(NoFileName) <==> path.name == ""
      ensures result.Err? ==> fs == old(fs) && trace == old(trace)
      ensures result.Err? ==> result.error in {NoFileName, OpenTemporary, AttemptsExhausted}
      ensures result.Ok? <==> ClaimsSome(old(fs), path, pid, old(sequence), openFaults)
      ensures result == Err(OpenTemporary) <==>
                path.name != "" && exists k :: OpenFailsAt(old(fs), path, pid, old(sequence), openFaults, k)
      ensures result == Err(AttemptsExhausted) <==>
                path.name != "" && TakenUpTo(old(fs), path, pid, old(sequence), openFaults, MAX_TEMPORARY_FILE_ATTEMPTS)
      ensures result.Ok? ==>
                && (exists k :: 0 <= k < MAX_TEMPORARY_FILE_ATTEMPTS && result.value == AttemptPath(path, pid, old(sequence), k)
                                && sequence == old(sequence) + k + 1)
                && result.value !in Visible(old(fs))
                && fs == Create(old(fs), result.value) && trace == old(trace) + [fs]
    {
      if path.name == "" {
        return Err(NoFileName);
      }
      for attempt := 0 to MAX_TEMPORARY_FILE_ATTEMPTS
        invariant fs == old(fs) && trace == old(trace)
        invariant sequence == old(sequence) + attempt
        invariant TakenUpTo(fs, path, pid, old(sequence), openFaults, attempt)
      {
        var temporary := TempPath(path, pid, sequence % U64_SIZE);
        assert temporary == AttemptPath(path, pid, old(sequence), attempt);
        sequence := sequence + 1;
        if attempt in openFaults {
          assert OpenFailsAt(fs, path, pid, old(sequence), openFaults, attempt);
          return Err(OpenTemporary);
        }
        if temporary !in Visible(fs) {
          assert ClaimsAt(fs, path, pid, old(sequence), openFaults, attempt);
          fs := Create(fs, temporary);
          trace := trace + [fs];
          return Ok(temporary);
        }
      }
      result := Err(AttemptsExhausted);
    }

    /** Writes and syncs the temporary file, then runs the caller's hook. */
    method FillTemporary(
      ghost start: Fs, ghost from: nat, ghost path: Path, inode: Inode, contents: Bytes, faults: Faults)
      returns (failure: Option<Failure>)
      requires Undisturbed(start, fs, path) && SafeSince(start, from, path, contents)
      requires start.nextInode <= inode && inode in fs.files
      modifies this`fs, this`trace
      ensures Undisturbed(start, fs, path) && SafeSince(start, from, path, contents)
      ensures old(trace) < trace && Recorded()
      ensures Visible(fs) == Visible(old(fs)) && inode in fs.files
      ensures failure == (if faults.write.Some? then Some(WriteFile) else if faults.sync then Some(SyncFileData)
                          else if faults.beforeReplace then Some(BeforeReplace) else None)
      ensures failure.None? ==> fs.files[inode] == File(contents, true)
    {
      var data := if faults.write.Some? then faults.write.value else contents;
      var written := Write(fs, inode, data);
      FileChangeElsewhere(start, fs, inode, File(data, false), path);
      UndisturbedIsCrashSafe(start, written, path, contents);
      Advance(start, from, path, contents, written);
      if faults.write.Some? {
        return Some(WriteFile);
      }
      if faults.sync {
        return Some(SyncFileData);
      }
      var synced := SyncFile(fs, inode);
      FileChangeElsewhere(start, fs, inode, File(contents, true), path);
      UndisturbedIsCrashSafe(start, synced, path, contents);
      Advance(start, from, path, contents, synced);
      return if faults.beforeReplace then Some(BeforeReplace) else None;
    }

    /** `replace_and_sync_parent`: a failed directory sync comes after the rename. */
    method ReplaceAndSyncParent(
      ghost start: Fs, ghost from: nat, temporary: Path, path: Path, ghost inode: Inode, ghost contents: Bytes,
      faults: Faults)
      returns (failure: Option<Failure>)
      requires Undisturbed(start, fs, path) && SafeSince(start, from, path, contents)
      requires temporary != path && temporary.dir == path.dir
      requires Entry(Visible(fs), temporary) == Some(inode) && start.nextInode <= inode
      requires inode in fs.files && fs.files[inode] == File(contents, true)
      requires Recorded()
      modifies this`fs, this`trace
      ensures SafeSince(start, from, path, contents) && old(trace) <= trace && Recorded()
      ensures failure == (if faults.rename then Some(Replace) else if faults.syncDirectory then Some(SyncDirectory) else None)
      ensures failure == Some(Replace) ==> fs == old(fs)
      ensures failure == Some(SyncDirectory) ==> Supplanted(start, fs, path, inode, contents)
      ensures failure != Some(Replace) ==>
                Entry(Visible(fs), temporary) == None && OnlyAt(old(fs), fs, {temporary, path})
      ensures failure.None? ==> Sound(fs) && Durably(fs, path, Some(contents))
    {
      if faults.rename {
        return Some(Replace);
      }
      var renamed := Rename(fs, temporary, path);
      OlderThan(start, fs, path, inode);
      RenameSupplants(start, fs, temporary, path, inode, contents);
      SupplantedIsCrashSafe(start, renamed, path, inode, contents);
      Advance(start, from, path, contents, renamed);
      if faults.syncDirectory {
        return Some(SyncDirectory);
      }
      var pinned := SyncDir(fs, path.dir);
      SyncPinsReplacement(start, fs, path, inode, contents);
      Advance(start, from, path, contents, pinned);
      return None;
    }

    /** Best-effort removal of the temporary file after a failure. */
    method CleanUp(ghost start: Fs, ghost from: nat, temporary: Path, ghost path: Path, ghost contents: Bytes, failed: bool)
      requires Undisturbed(start, fs, path) && SafeSince(start, from, path, contents) && temporary != path
      requires Recorded()
      modifies this`fs, this`trace
      ensures Undisturbed(start, fs, path) && SafeSince(start, from, path, contents)
      ensures old(trace) <= trace && Recorded()
      ensures OnlyAt(old(fs), fs, {temporary})
      ensures !failed ==> temporary !in Visible(fs)
    {
      if temporary in Visible(fs) && !failed {
        var cleaned := Remove(fs, temporary);
        RemoveElsewhere(start, fs, temporary, path);
        RemoveShows(fs, temporary);
        UndisturbedIsCrashSafe(start, cleaned, path, contents);
        Advance(start, from, path, contents, cleaned);
      }
    }

    /** All that follows the claim of a temporary file, with its removal after a failure. */
    method FillAndReplace(
      ghost start: Fs, ghost from: nat, temporary: Path, path: Path, inode: Inode, contents: Bytes, faults: Faults)
      returns (failure: Option<Failure>)
      requires Undisturbed(start, fs, path) && SafeSince(start, from, path, contents) && Recorded()
      requires temporary != path && temporary.dir == path.dir
      requires Entry(Visible(fs), temporary) == Some(inode) && start.nextInode <= inode && inode in fs.files
      modifies this`fs, this`trace
      ensures Sound(fs) && SafeSince(start, from, path, contents) && old(trace) <= trace && Recorded()
      ensures OnlyAt(old(fs), fs, {temporary, path})
      ensures failure.None? || !faults.cleanup ==> temporary !in Visible(fs)
      ensures failure.None? ==> Durably(fs, path, Some(contents))
      ensures failure == (if faults.write.Some? then Some(WriteFile) else if faults.sync then Some(SyncFileData)
                          else if faults.beforeReplace then Some(BeforeReplace) else if faults.rename then Some(Replace)
                          else if faults.syncDirectory then Some(SyncDirectory) else None)
      ensures failure.Some? ==> Read(fs, path) == if failure.value == SyncDirectory then Some(contents) else Read(start, path)
    {
      failure := FillTemporary(start, from, path, inode, contents, faults);
      if failure.None? {
        failure := ReplaceAndSyncParent(start, from, temporary, path, inode, contents, faults);
      }
      if failure.None? {
        return;
      }
      if failure.value == SyncDirectory {
        // The rename took the temporary name away, so removing it finds nothing.
        SupplantedIsCrashSafe(start, fs, path, inode, contents);
        return;
      }
      CleanUp(start, from, temporary, path, contents, faults.cleanup);
      ReadUndisturbed(start, fs, path);
    }

    /**
     `durable_write_with_before_replace`. A crash at any point leaves the destination as a
     crash before the call could have left it, or holding exactly the new contents. Success
     is durable. A failure before the rename leaves the visible destination as it was; only
     a failed directory sync comes after it, and then the new contents are visible. No other
     path changes, unless removing the temporary file fails as well. The call succeeds exactly
     when no system call it depends on fails and one of the first 128 names is free; otherwise
     the error names the first failure.
     */
    method DurableWrite(path: Path, contents: Bytes, faults: Faults) returns (result: Result<(), Failure>)
      requires Sound(fs) && Recorded()
      modifies this
      ensures Sound(fs) && Recorded() && old(trace) <= trace
      ensures SafeSince(old(fs), old(|trace|), path, contents)
      ensures result.Ok? ==> Durably(fs, path, Some(contents))
      ensures result.Err? ==> Read(fs, path) == if result.error == SyncDirectory then Some(contents) else Read(old(fs), path)
      ensures result.Ok? <==>
                && !faults.createDirectory && ClaimsSome(old(fs), path, pid, old(sequence), faults.open)
                && faults.write.None? && !faults.sync && !faults.beforeReplace && !faults.rename && !faults.syncDirectory
      ensures result == Err(CreateDirectory) <==> faults.createDirectory
      ensures result == Err(NoFileName) <==> !faults.createDirectory && path.name == ""
      ensures faults.createDirectory || !ClaimsSome(old(fs), path, pid, old(sequence), faults.open) ==> fs == old(fs)
      ensures !faults.createDirectory && !ClaimsSome(old(fs), path, pid, old(sequence), faults.open) ==>
                result.Err? && result.error in {NoFileName, OpenTemporary, AttemptsExhausted}
      ensures !faults.createDirectory && ClaimsSome(old(fs), path, pid, old(sequence), faults.open) && result.Err? ==>
                result.error == if faults.write.Some? then WriteFile else if faults.sync then SyncFileData
                                else if faults.beforeReplace then BeforeReplace else if faults.rename then Replace
                                else SyncDirectory
      ensures result.Ok? || !faults.cleanup ==> OnlyAt(old(fs), fs, {path})
    {
      ghost var start, from := fs, |trace|;
      SoundIsUndisturbed(fs, path);
      if faults.createDirectory {
        return Err(CreateDirectory);
      }
      var claimed := CreateTemporaryFile(path, faults.open);
      if claimed.Err? {
        return Err(claimed.error);
      }
      var temporary := claimed.value;
      var inode := fs.nextInode - 1;
      TempDiffers(path, temporary, pid, old(sequence));
      ClaimedSafely(start, temporary, path, contents);
      ghost var claimedFs := fs;
      var failure := FillAndReplace(start, from, temporary, path, inode, contents, faults);
      if temporary !in Visible(fs) {
        TemporaryIsGone(start, claimedFs, fs, temporary, path);
      }
      return if failure.None? then Ok(()) else Err(failure.value);
    }

    /**
     `durable_replace`: syncs an existing file and moves it over the destination. A crash at
     any point leaves the destination as a crash before the call could have left it, or
     holding exactly what the source held. When both names already are the same file, the
     rename does nothing and the source name stays.
     */
    method DurableReplace(source: Path, destination: Path, faults: Faults) returns (result: Result<(), Failure>)
      requires Sound(fs) && Recorded()
      modifies this
      ensures Sound(fs) && Recorded() && old(trace) <= trace
      ensures Read(old(fs), source).Some? ==>
                SafeSince(old(fs), old(|trace|), destination, Read(old(fs), source).value)
      ensures result == Err(DifferentDirectories) <==> source.dir != destination.dir
      ensures result == Err(DifferentDirectories) || result == Err(OpenSource) ==> fs == old(fs)
      ensures source.dir == destination.dir ==>
                result == if source !in Visible(old(fs)) then Err(OpenSource) else if faults.sync then Err(SyncFileData)
                          else if faults.rename then Err(Replace) else if faults.syncDirectory then Err(SyncDirectory)
                          else Ok(())
      ensures result.Ok? ==>
                && Read(old(fs), source).Some?
                && Durably(fs, destination, Read(old(fs), source))
                && if Entry(Visible(old(fs)), source) == Entry(Visible(old(fs)), destination)
                   then Durably(fs, source, Read(old(fs), source)) else Durably(fs, source, None)
      ensures OnlyAt(old(fs), fs, {source, destination})
      ensures result.Err? && result.error != SyncDirectory ==>
                Read(fs, destination) == Read(old(fs), destination) && Read(fs, source) == Read(old(fs), source)
    {
      if source.dir != destination.dir {
        return Err(DifferentDirectories);
      }
      if source !in Visible(fs) {
        return Err(OpenSource);
      }
      var inode := Visible(fs)[source];
      VisibleIsCandidate(fs, source);
      CandidateFileExists(fs, source, Some(inode));
      if faults.sync {
        return Err(SyncFileData);
      }
      SyncFileKeepsReads(fs, inode, source);
      SyncFileKeepsReads(fs, inode, destination);
      ghost var start, from, contents := fs, |trace|, fs.files[inode].data;
      var synced := SyncFile(fs, inode);
      SyncFileNarrows(fs, inode, destination, contents);
      Advance(start, from, destination, contents, synced);
      if faults.rename {
        return Err(Replace);
      }
      var renamed := Rename(fs, source, destination);
      MovedOver(synced, source, destination, inode);
      Advance(start, from, destination, contents, renamed);
      if faults.syncDirectory {
        return Err(SyncDirectory);
      }
      var pinned := SyncDir(fs, destination.dir);
      SyncDirMakesDurable(fs, destination);
      SyncDirMakesDurable(fs, source);
      SyncDirShowsNothing(fs, destination.dir);
      Advance(start, from, destination, contents, pinned);
      return Ok(());
    }

    /**
     `durable_remove`. A crash at any point leaves the path as a crash before the call could
     have left it, or absent. Success is durable if and only if the file was there, or could
     not have come back anyway: removing an absent file succeeds without syncing anything.
     */
    method DurableRemove(path: Path, faults: Faults) returns (result: Result<(), Failure>)
      requires Sound(fs) && Recorded()
      modifies this
      ensures Sound(fs) && OnlyAt(old(fs), fs, {path}) && Recorded() && old(trace) <= trace
      ensures forall k :: old(|trace|) <= k < |trace| ==> CrashLeaves(old(fs), trace[k], path, None)
      ensures result.Ok? ==> path !in Visible(fs)
      ensures result.Ok? ==>
                (Durably(fs, path, None) <==> path in Visible(old(fs)) || CannotComeBack(old(fs), path))
      ensures path !in Visible(old(fs)) ==> result.Ok? && fs == old(fs) && trace == old(trace)
      ensures result == Err(RemoveFile) ==> fs == old(fs) && trace == old(trace)
      ensures path in Visible(old(fs)) ==>
                result == if faults.cleanup then Err(RemoveFile) else if faults.syncDirectory then Err(SyncDirectory)
                          else Ok(())
      ensures result == Err(SyncDirectory) ==> path !in Visible(fs)
    {
      if path !in Visible(fs) {
        AbsentForGood(fs, path);
        return Ok(());
      }
      if faults.cleanup {
        return Err(RemoveFile);
      }
      RemoveStaysSound(fs, path);
      RemoveShows(fs, path);
      RemovalIsCrashSafe(fs, path);
      fs := Remove(fs, path);
      trace := trace + [fs];
      if faults.syncDirectory {
        return Err(SyncDirectory);
      }
      SyncDirMakesDurable(fs, path);
      SyncDirShowsNothing(fs, path.dir);
      fs := SyncDir(fs, path.dir);
      trace := trace + [fs];
      return Ok(());
    }
  }

  /** For a destination that was durable: a crash leaves exactly its old contents or exactly the new. */
  lemma OldOrNew(start: Fs, fs: Fs, path: Path, before: Option<Bytes>, contents: Bytes, outcome: Option<Bytes>)
    requires Durably(start, path, before) && CrashSafe(start, fs, path, contents)
    requires MayHoldAfterCrash(fs, path, outcome)
    ensures outcome == before || outcome == Some(contents)
  {
  }

  lemma ReadUndisturbed(start: Fs, fs: Fs, path: Path)
    requires Undisturbed(start, fs, path)
    ensures Read(fs, path) == Read(start, path)
  {
    VisibleIsCandidate(start, path);
    if path in Visible(start) {
      CandidateFileExists(start, path, Entry(Visible(start), path));
    }
  }

  lemma RemoveStaysSound(fs: Fs, path: Path)
    requires Sound(fs)
    ensures Sound(Remove(fs, path))
  {
  }

  lemma SyncFileKeepsReads(fs: Fs, inode: Inode, path: Path)
    requires Sound(fs) && inode in fs.files
    ensures Sound(SyncFile(fs, inode)) && Read(SyncFile(fs, inode), path) == Read(fs, path)
    ensures Visible(SyncFile(fs, inode)) == Visible(fs)
  {
  }

  /**
   Removing an absent file is not always durable; `AbsentForGood` says when it is. Here the
   entry is gone from view but its removal is still pending, the call succeeds, and a crash
   brings the file back.
   */
  lemma RemovedFileMayComeBack(path: Path)
    ensures var fs := Fs(map[0 := File([], true)], map[path := 0], [Unlink(path)], 1);
            Sound(fs) && path !in Visible(fs) && MayHoldAfterCrash(fs, path, Some([]))
  {
    var fs := Fs(map[0 := File([], true)], map[path := 0], [Unlink(path)], 1);
    AppendedOp(fs.(pending := []), Unlink(path), path);
    assert fs == fs.(pending := [] + [Unlink(path)]);
    CrashOutcomes(fs, path, Some([]));
    assert IsCandidate(fs, path, Some(0)) && MayRead(fs, Some(0), Some([]));
  }
}
