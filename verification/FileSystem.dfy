/**
 A file system with a visible and a durable layer. File data is durable once synced; until
 then a crash may leave anything in its place. Directory changes are durable once their
 directory is synced; until then each of them may or may not survive a crash, and a
 rename survives as a whole or not at all.
 */
module FileSystem {
  import opened Support

  newtype Byte = b: int | 0 <= b < 256
  type Bytes = seq<Byte>
  type Inode = nat

  datatype Path = Path(dir: string, name: string)

  datatype File = File(data: Bytes, synced: bool)

  datatype DirOp =
    | Link(path: Path, inode: Inode)
    | Move(source: Path, target: Path, inode: Inode)
    | Unlink(path: Path)

  /**
   `durable` is the directory state on disk; `pending` are the changes since, oldest first.
   Files are numbered from 0 and new ones take `nextInode`.
   */
  datatype Fs = Fs(files: map<Inode, File>, durable: map<Path, Inode>, pending: seq<DirOp>, nextInode: Inode)

  function Play(entries: map<Path, Inode>, op: DirOp): map<Path, Inode> {
    match op
    case Link(path, inode) => entries[path := inode]
    case Move(source, target, inode) => (entries - {source})[target := inode]
    case Unlink(path) => entries - {path}
  }

  function PlayAll(entries: map<Path, Inode>, ops: seq<DirOp>): map<Path, Inode> {
    if ops == [] then entries else Play(PlayAll(entries, ops[..|ops| - 1]), ops[|ops| - 1])
  }

  /** What running programs see. */
  function Visible(fs: Fs): map<Path, Inode> {
    PlayAll(fs.durable, fs.pending)
  }

  function Entry(entries: map<Path, Inode>, path: Path): Option<Inode> {
    if path in entries then Some(entries[path]) else None
  }

  function Read(fs: Fs, path: Path): Option<Bytes> {
    var entry := Entry(Visible(fs), path);
    if entry.Some? && entry.value in fs.files then Some(fs.files[entry.value].data) else None
  }

  function OpDir(op: DirOp): string {
    match op
    case Link(path, _) => path.dir
    case Move(source, _, _) => source.dir
    case Unlink(path) => path.dir
  }

  function InDir(ops: seq<DirOp>, dir: string, keep: bool): seq<DirOp> {
    if ops == [] then []
    else
      InDir(ops[..|ops| - 1], dir, keep)
      + if (OpDir(ops[|ops| - 1]) == dir) == keep then [ops[|ops| - 1]] else []
  }

  // ----- Operations -----

  function Create(fs: Fs, path: Path): Fs {
    fs.(files := fs.files[fs.nextInode := File([], false)],
        pending := fs.pending + [Link(path, fs.nextInode)],
        nextInode := fs.nextInode + 1)
  }

  function Write(fs: Fs, inode: Inode, data: Bytes): Fs {
    fs.(files := fs.files[inode := File(data, false)])
  }

  function SyncFile(fs: Fs, inode: Inode): Fs
    requires inode in fs.files
  {
    fs.(files := fs.files[inode := fs.files[inode].(synced := true)])
  }

  /** Renaming a file to a name it already has does nothing, as in POSIX. */
  function Rename(fs: Fs, source: Path, target: Path): Fs
    requires source in Visible(fs)
  {
    if Entry(Visible(fs), target) == Some(Visible(fs)[source]) then fs
    else fs.(pending := fs.pending + [Move(source, target, Visible(fs)[source])])
  }

  function Remove(fs: Fs, path: Path): Fs {
    fs.(pending := fs.pending + [Unlink(path)])
  }

  function SyncDir(fs: Fs, dir: string): Fs {
    fs.(durable := PlayAll(fs.durable, InDir(fs.pending, dir, true)), pending := InDir(fs.pending, dir, false))
  }

  // ----- Crashes -----

  /** The operations whose flag is set, in order. */
  ghost function Selected(ops: seq<DirOp>, survives: seq<bool>): seq<DirOp>
    requires |ops| == |survives|
  {
    if ops == [] then []
    else
      var n := |ops| - 1;
      Selected(ops[..n], survives[..n]) + if survives[n] then [ops[n]] else []
  }

  ghost predicate CrashesTo(fs: Fs, survives: seq<bool>, after: Fs) {
    && |survives| == |fs.pending|
    && after.durable == PlayAll(fs.durable, Selected(fs.pending, survives))
    && after.pending == []
    && after.files.Keys == fs.files.Keys
    && forall inode :: inode in fs.files && fs.files[inode].synced ==> after.files[inode] == fs.files[inode]
  }

  /** Some crash leaves `path` reading as `outcome`. */
  ghost predicate MayHoldAfterCrash(fs: Fs, path: Path, outcome: Option<Bytes>) {
    exists survives, after :: CrashesTo(fs, survives, after) && Read(after, path) == outcome
  }

  /** No entry, on disk or pending, names a file that is not there. */
  ghost predicate Sound(fs: Fs) {
    && (forall inode :: inode in fs.files ==> inode < fs.nextInode)
    && (forall path :: path in fs.durable ==> fs.durable[path] in fs.files)
    && (forall k :: 0 <= k < |fs.pending| ==> GoodOp(fs, fs.pending[k]))
  }

  /** The operation names an existing file, and moves it within one directory. */
  ghost predicate GoodOp(fs: Fs, op: DirOp) {
    && (op.Unlink? || op.inode in fs.files)
    && (op.Move? ==> op.source.dir == op.target.dir && op.source != op.target)
  }

  ghost predicate Touches(op: DirOp, path: Path) {
    match op
    case Link(p, _) => p == path
    case Move(source, target, _) => source == path || target == path
    case Unlink(p) => p == path
  }

  /** The entry an operation on `path` leaves there. */
  ghost function EffectOn(op: DirOp, path: Path): Option<Inode> {
    match op
    case Link(_, inode) => Some(inode)
    case Move(_, target, inode) => if target == path then Some(inode) else None
    case Unlink(_) => None
  }

  /** An entry `path` may have after a crash: the one on disk, or one a pending change puts there. */
  ghost predicate IsCandidate(fs: Fs, path: Path, entry: Option<Inode>) {
    || entry == Entry(fs.durable, path)
    || exists k :: 0 <= k < |fs.pending| && Touches(fs.pending[k], path) && EffectOn(fs.pending[k], path) == entry
  }

  /** What a file reached through `entry` may read as after a crash. */
  ghost predicate MayRead(fs: Fs, entry: Option<Inode>, outcome: Option<Bytes>) {
    match entry
    case None => outcome == None
    case Some(inode) =>
      inode in fs.files && outcome.Some? && (fs.files[inode].synced ==> outcome.value == fs.files[inode].data)
  }

  lemma TouchedDirectory(fs: Fs, op: DirOp, path: Path)
    requires GoodOp(fs, op) && Touches(op, path)
    ensures OpDir(op) == path.dir
  {
  }

  lemma PlayEntry(entries: map<Path, Inode>, op: DirOp, path: Path)
    ensures Entry(Play(entries, op), path) == if Touches(op, path) then EffectOn(op, path) else Entry(entries, path)
  {
  }

  lemma {:induction false} SelectedEntry(fs: Fs, n: nat, survives: seq<bool>, path: Path)
    requires n == |survives| <= |fs.pending|
    ensures IsCandidate(fs, path, Entry(PlayAll(fs.durable, Selected(fs.pending[..n], survives)), path))
    decreases n
  {
    if n > 0 {
      var ops := fs.pending[..n];
      assert ops[..n - 1] == fs.pending[..n - 1];
      SelectedEntry(fs, n - 1, survives[..n - 1], path);
      var earlier := Selected(ops[..n - 1], survives[..n - 1]);
      if survives[n - 1] {
        assert Selected(ops, survives) == earlier + [ops[n - 1]];
        assert (earlier + [ops[n - 1]])[..|earlier|] == earlier;
        PlayEntry(PlayAll(fs.durable, earlier), ops[n - 1], path);
        assert ops[n - 1] == fs.pending[n - 1];
      } else {
        assert Selected(ops, survives) == earlier;
      }
    }
  }

  /** The flags under which only operation `k` survives. */
  ghost function OnlyOne(n: nat, k: nat): seq<bool> {
    seq(n, i => i == k)
  }

  lemma {:induction false} SelectedNone(ops: seq<DirOp>, survives: seq<bool>)
    requires |ops| == |survives| && forall i :: 0 <= i < |ops| ==> !survives[i]
    ensures Selected(ops, survives) == []
    decreases |ops|
  {
    if ops != [] {
      SelectedNone(ops[..|ops| - 1], survives[..|ops| - 1]);
    }
  }

  lemma {:induction false} SelectedOnlyOne(ops: seq<DirOp>, k: nat)
    requires k < |ops|
    ensures Selected(ops, OnlyOne(|ops|, k)) == [ops[k]]
    decreases |ops|
  {
    var n := |ops| - 1;
    if k == n {
      SelectedNone(ops[..n], OnlyOne(|ops|, k)[..n]);
    } else {
      SelectedOnlyOne(ops[..n], k);
      assert OnlyOne(|ops|, k)[..n] == OnlyOne(n, k);
    }
  }

  lemma {:induction false} SelectedAll(ops: seq<DirOp>, survives: seq<bool>)
    requires |ops| == |survives| && forall i :: 0 <= i < |ops| ==> survives[i]
    ensures Selected(ops, survives) == ops
    decreases |ops|
  {
    if ops != [] {
      SelectedAll(ops[..|ops| - 1], survives[..|ops| - 1]);
      assert ops == ops[..|ops| - 1] + [ops[|ops| - 1]];
    }
  }

  lemma CandidateIsReachable(fs: Fs, path: Path, entry: Option<Inode>) returns (survives: seq<bool>)
    requires IsCandidate(fs, path, entry)
    ensures |survives| == |fs.pending|
    ensures Entry(PlayAll(fs.durable, Selected(fs.pending, survives)), path) == entry
  {
    if entry == Entry(fs.durable, path) {
      survives := seq(|fs.pending|, i => false);
      SelectedNone(fs.pending, survives);
    } else {
      var k :| 0 <= k < |fs.pending| && Touches(fs.pending[k], path) && EffectOn(fs.pending[k], path) == entry;
      survives := OnlyOne(|fs.pending|, k);
      SelectedOnlyOne(fs.pending, k);
      assert [fs.pending[k]][..0] == [];
      PlayEntry(fs.durable, fs.pending[k], path);
    }
  }

  lemma CandidateFileExists(fs: Fs, path: Path, entry: Option<Inode>)
    requires Sound(fs) && IsCandidate(fs, path, entry) && entry.Some?
    ensures entry.value in fs.files
  {
  }

  /**
   Crash outcomes, exactly: `path` may read as `outcome` after a crash if and only if one
   of its candidate entries leads to a file that may read so.
   */
  lemma CrashOutcomes(fs: Fs, path: Path, outcome: Option<Bytes>)
    requires Sound(fs)
    ensures MayHoldAfterCrash(fs, path, outcome) <==>
            exists entry :: IsCandidate(fs, path, entry) && MayRead(fs, entry, outcome)
  {
    if MayHoldAfterCrash(fs, path, outcome) {
      var survives, after :| CrashesTo(fs, survives, after) && Read(after, path) == outcome;
      assert fs.pending[..|fs.pending|] == fs.pending;
      SelectedEntry(fs, |fs.pending|, survives, path);
      var entry := Entry(after.durable, path);
      assert Visible(after) == after.durable;
      if entry.Some? {
        CandidateFileExists(fs, path, entry);
      }
      assert IsCandidate(fs, path, entry) && MayRead(fs, entry, outcome);
    }
    if entry :| IsCandidate(fs, path, entry) && MayRead(fs, entry, outcome) {
      var survives := CandidateIsReachable(fs, path, entry);
      var files := map inode | inode in fs.files ::
        if entry == Some(inode) && outcome.Some? then fs.files[inode].(data := outcome.value) else fs.files[inode];
      var after := Fs(files, PlayAll(fs.durable, Selected(fs.pending, survives)), [], fs.nextInode);
      assert Visible(after) == after.durable;
      assert CrashesTo(fs, survives, after);
      assert Read(after, path) == outcome;
    }
  }

  /** What is visible is always one of the possible survivors. */
  lemma VisibleIsCandidate(fs: Fs, path: Path)
    ensures IsCandidate(fs, path, Entry(Visible(fs), path))
  {
    var survives := seq(|fs.pending|, i => true);
    SelectedAll(fs.pending, survives);
    assert fs.pending[..|fs.pending|] == fs.pending;
    SelectedEntry(fs, |fs.pending|, survives, path);
  }

  /** Data written and not yet synced may be anything after a crash: this is what a sync is for. */
  lemma UnsyncedDataMayBeLost(fs: Fs, inode: Inode, data: Bytes, path: Path, garbage: Bytes)
    requires Sound(fs) && inode in fs.files && IsCandidate(fs, path, Some(inode))
    ensures MayHoldAfterCrash(Write(fs, inode, data), path, Some(garbage))
  {
    var after := Write(fs, inode, data);
    assert Sound(after) by {
      assert forall k :: 0 <= k < |fs.pending| ==> (GoodOp(fs, fs.pending[k]) ==> GoodOp(after, after.pending[k]));
    }
    assert IsCandidate(after, path, Some(inode)) && MayRead(after, Some(inode), Some(garbage));
    CrashOutcomes(after, path, Some(garbage));
  }

  // ----- Directory syncs -----

  /** Changes in one directory do not show in another. */
  lemma {:induction false} PlayInDir(entries: map<Path, Inode>, ops: seq<DirOp>, dir: string, path: Path)
    requires forall k :: 0 <= k < |ops| && ops[k].Move? ==> ops[k].source.dir == ops[k].target.dir
    ensures Entry(PlayAll(entries, ops), path) ==
            Entry(PlayAll(entries, InDir(ops, dir, path.dir == dir)), path)
    decreases |ops|
  {
    if ops != [] {
      var n := |ops| - 1;
      PlayInDir(entries, ops[..n], dir, path);
      var earlier := InDir(ops[..n], dir, path.dir == dir);
      PlayEntry(PlayAll(entries, ops[..n]), ops[n], path);
      if (OpDir(ops[n]) == dir) == (path.dir == dir) {
        assert (earlier + [ops[n]])[..|earlier|] == earlier;
        PlayEntry(PlayAll(entries, earlier), ops[n], path);
      } else {
        assert !Touches(ops[n], path);
        assert InDir(ops, dir, path.dir == dir) == earlier;
      }
    }
  }

  lemma {:induction false} InDirMembers(ops: seq<DirOp>, dir: string, keep: bool, op: DirOp)
    ensures op in InDir(ops, dir, keep) <==> op in ops && (OpDir(op) == dir) == keep
    decreases |ops|
  {
    if ops != [] {
      InDirMembers(ops[..|ops| - 1], dir, keep, op);
      assert ops == ops[..|ops| - 1] + [ops[|ops| - 1]];
    }
  }

  lemma {:induction false} PlayOther(entries: map<Path, Inode>, ops: seq<DirOp>, path: Path)
    requires forall k :: 0 <= k < |ops| ==> !Touches(ops[k], path)
    ensures Entry(PlayAll(entries, ops), path) == Entry(entries, path)
    decreases |ops|
  {
    if ops != [] {
      PlayOther(entries, ops[..|ops| - 1], path);
      PlayEntry(PlayAll(entries, ops[..|ops| - 1]), ops[|ops| - 1], path);
    }
  }

  /** What a directory sync leaves pending does not touch the directory. */
  lemma RestAfterSync(fs: Fs, dir: string)
    requires Sound(fs)
    ensures var rest := InDir(fs.pending, dir, false);
            forall op :: op in rest ==> op in fs.pending && GoodOp(fs, op) && OpDir(op) != dir
  {
    var rest := InDir(fs.pending, dir, false);
    forall op | op in rest
      ensures op in fs.pending && GoodOp(fs, op) && OpDir(op) != dir
    {
      InDirMembers(fs.pending, dir, false, op);
    }
  }

  /** A directory sync changes nothing visible, and pins down every entry of that directory. */
  lemma SyncDirPins(fs: Fs, path: Path)
    requires Sound(fs)
    ensures var after := SyncDir(fs, path.dir);
            && Entry(Visible(after), path) == Entry(Visible(fs), path)
            && (forall entry :: IsCandidate(after, path, entry) <==> entry == Entry(Visible(fs), path))
  {
    var after := SyncDir(fs, path.dir);
    PlayInDir(fs.durable, fs.pending, path.dir, path);
    RestAfterSync(fs, path.dir);
    forall k | 0 <= k < |after.pending|
      ensures !Touches(after.pending[k], path)
    {
      var op := after.pending[k];
      assert op in InDir(fs.pending, path.dir, false);
      if Touches(op, path) {
        TouchedDirectory(fs, op, path);
      }
    }
    PlayOther(after.durable, after.pending, path);
  }

  /** Elsewhere it changes neither what is visible nor what may survive a crash. */
  lemma SyncDirElsewhere(fs: Fs, dir: string, path: Path)
    requires Sound(fs) && path.dir != dir
    ensures var after := SyncDir(fs, dir);
            && Entry(Visible(after), path) == Entry(Visible(fs), path)
            && (forall entry :: IsCandidate(after, path, entry) ==> IsCandidate(fs, path, entry))
  {
    var after := SyncDir(fs, dir);
    var flushed := InDir(fs.pending, dir, true);
    RestAfterSync(fs, dir);
    forall k | 0 <= k < |flushed|
      ensures !Touches(flushed[k], path)
    {
      assert flushed[k] in flushed;
      InDirMembers(fs.pending, dir, true, flushed[k]);
    }
    PlayOther(fs.durable, flushed, path);
    PlayInDir(fs.durable, fs.pending, dir, path);
    PlayFrom(fs.durable, after.durable, after.pending, path);
    forall entry | IsCandidate(after, path, entry)
      ensures IsCandidate(fs, path, entry)
    {
      if entry != Entry(after.durable, path) {
        var k :| 0 <= k < |after.pending| && Touches(after.pending[k], path) && EffectOn(after.pending[k], path) == entry;
        assert after.pending[k] in fs.pending;
      }
    }
  }

  lemma {:induction false} PlayFrom(a: map<Path, Inode>, b: map<Path, Inode>, ops: seq<DirOp>, path: Path)
    requires Entry(a, path) == Entry(b, path)
    ensures Entry(PlayAll(a, ops), path) == Entry(PlayAll(b, ops), path)
    decreases |ops|
  {
    if ops != [] {
      var n := |ops| - 1;
      PlayFrom(a, b, ops[..n], path);
      PlayEntry(PlayAll(a, ops[..n]), ops[n], path);
      PlayEntry(PlayAll(b, ops[..n]), ops[n], path);
    }
  }

  lemma {:induction false} DurableFilesExist(fs: Fs, ops: seq<DirOp>)
    requires forall path :: path in fs.durable ==> fs.durable[path] in fs.files
    requires forall k :: 0 <= k < |ops| ==> ops[k].Unlink? || ops[k].inode in fs.files
    ensures forall path :: path in PlayAll(fs.durable, ops) ==> PlayAll(fs.durable, ops)[path] in fs.files
    decreases |ops|
  {
    if ops != [] {
      DurableFilesExist(fs, ops[..|ops| - 1]);
    }
  }

  lemma SyncDirStaysSound(fs: Fs, dir: string)
    requires Sound(fs)
    ensures Sound(SyncDir(fs, dir))
  {
    var flushed := InDir(fs.pending, dir, true);
    forall k | 0 <= k < |flushed|
      ensures flushed[k] in fs.pending
    {
      assert flushed[k] in flushed;
      InDirMembers(fs.pending, dir, true, flushed[k]);
    }
    assert forall k :: 0 <= k < |flushed| ==> GoodOp(fs, flushed[k]);
    DurableFilesExist(fs, flushed);
    RestAfterSync(fs, dir);
    var after := SyncDir(fs, dir);
    forall k | 0 <= k < |after.pending|
      ensures GoodOp(after, after.pending[k])
    {
      assert after.pending[k] in InDir(fs.pending, dir, false);
    }
  }
}
