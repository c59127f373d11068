/** The rule file: replaced by writing a temporary file, syncing it and renaming it over the old one. */
module RuleStore {
  import opened MeshTypes
  import opened RuleList

  /** File contents. `Torn` does not parse; `Buffered` is written but not yet synced, so a crash may
      tear it; `Whole` is synced. */
  datatype FileData = Torn | Buffered(rules: seq<RoutingRule>) | Whole(rules: seq<RoutingRule>)

  /** The rule file itself, or a temporary file of some time stamp. */
  datatype Path = Main | Temp(stamp: int)

  type Files = map<Path, FileData>

  // ---------- one save, step by step ----------

  datatype SavePc = Begin | Created | Written | Synced | CleanUp | Saved | Failed

  datatype SaveState = SaveState(pc: SavePc, files: Files)

  predicate Final(pc: SavePc) {
    pc.Saved? || pc.Failed?
  }

  function SyncData(d: FileData): FileData {
    if d.Buffered? then Whole(d.rules) else d
  }

  /** The next file effect of a save that uses temporary file `tmp`; `ok` says whether it succeeds. */
  function SaveNext(rules: seq<RoutingRule>, tmp: Path, st: SaveState, ok: bool): SaveState {
    var f := st.files;
    match st.pc
    case Begin => if ok then SaveState(Created, f[tmp := Torn]) else SaveState(Failed, f)
    case Created => if ok then SaveState(Written, f[tmp := Buffered(rules)]) else SaveState(CleanUp, f[tmp := Torn])
    case Written => if ok && tmp in f then SaveState(Synced, f[tmp := SyncData(f[tmp])]) else SaveState(CleanUp, f)
    case Synced => if ok && tmp in f then SaveState(Saved, (f - {tmp})[Main := f[tmp]]) else SaveState(CleanUp, f)
    case CleanUp => SaveState(Failed, if ok then f - {tmp} else f)
    case Saved => st
    case Failed => st
  }

  /** What the temporary file holds at each point. */
  predicate SaveInv(rules: seq<RoutingRule>, tmp: Path, st: SaveState) {
    && (st.pc.Created? || st.pc.CleanUp? ==> tmp in st.files)
    && (st.pc.Written? ==> tmp in st.files && st.files[tmp] == Buffered(rules))
    && (st.pc.Synced? ==> tmp in st.files && st.files[tmp] == Whole(rules))
  }

  function MainFile(files: Files): Option<FileData> {
    if Main in files then Some(files[Main]) else None
  }

  /** One step of a save keeps its invariant and changes the rule file only by its final rename,
      which installs the complete new list. */
  lemma SaveStepKeeps(rules: seq<RoutingRule>, tmp: Path, st: SaveState, ok: bool)
    requires tmp.Temp? && SaveInv(rules, tmp, st) && !Final(st.pc)
    ensures var next := SaveNext(rules, tmp, st, ok);
            && SaveInv(rules, tmp, next)
            && MainFile(next.files) == (if next.pc.Saved? then Some(Whole(rules)) else MainFile(st.files))
            && (forall p: Path | p.Temp? && p != tmp ::
               (p in next.files <==> p in st.files) && (p in st.files ==> next.files[p] == st.files[p]))
            && (next.pc.Saved? ==> tmp !in next.files)
  {
  }

  ghost predicate SaveEffect(rules: seq<RoutingRule>, tmp: Path, a: SaveState, b: SaveState) {
    !Final(a.pc) && (b == SaveNext(rules, tmp, a, true) || b == SaveNext(rules, tmp, a, false))
  }

  /** A recorded save. */
  ghost predicate SaveRun(rules: seq<RoutingRule>, tmp: Path, trace: seq<SaveState>) {
    && trace != [] && trace[0].pc == Begin
    && forall i :: 0 < i < |trace| ==> SaveEffect(rules, tmp, trace[i - 1], trace[i])
  }

  lemma {:induction false} SaveRunAt(rules: seq<RoutingRule>, tmp: Path, trace: seq<SaveState>, i: nat)
    requires tmp.Temp? && SaveRun(rules, tmp, trace) && i < |trace|
    ensures SaveInv(rules, tmp, trace[i])
    ensures MainFile(trace[i].files) == if trace[i].pc.Saved? then Some(Whole(rules)) else MainFile(trace[0].files)
  {
    if i > 0 {
      SaveRunAt(rules, tmp, trace, i - 1);
      assert SaveEffect(rules, tmp, trace[i - 1], trace[i]);
      SaveStepKeeps(rules, tmp, trace[i - 1], trace[i] == SaveNext(rules, tmp, trace[i - 1], true));
    }
  }

  /** The save run `trace` is what the disk log shows from position `n` on. */
  ghost predicate Recorded(rules: seq<RoutingRule>, tmp: Path, trace: seq<SaveState>, log: seq<Files>, n: nat) {
    && SaveRun(rules, tmp, trace)
    && |log| == n + |trace|
    && forall i :: 0 <= i < |trace| ==> trace[i].files == log[n + i]
  }

  lemma RecordEffect(rules: seq<RoutingRule>, tmp: Path, trace: seq<SaveState>, log: seq<Files>, n: nat,
      next: SaveState)
    requires Recorded(rules, tmp, trace, log, n) && SaveEffect(rules, tmp, trace[|trace| - 1], next)
    ensures Recorded(rules, tmp, trace + [next], log + [next.files], n)
  {
    var more := trace + [next];
    forall i | 0 < i < |more|
      ensures SaveEffect(rules, tmp, more[i - 1], more[i])
    {
      assert i < |trace| ==> SaveEffect(rules, tmp, trace[i - 1], trace[i]);
    }
  }

  // ---------- crashes and reloads ----------

  /** `after` is a disk a crash may leave behind: unsynced files may be torn. */
  ghost predicate CrashImage(before: Files, after: Files) {
    && after.Keys == before.Keys
    && forall p | p in before ::
       after[p] == before[p] || (before[p].Buffered? && (after[p] == Torn || after[p] == Whole(before[p].rules)))
  }

  datatype LoadResult = Loaded(rules: seq<RoutingRule>) | ReadError | ParseError

  /** Reading the rule file; `readable` is false when the read fails for another reason than a
      missing file. */
  function Load(files: Files, readable: bool): LoadResult {
    if Main !in files then Loaded([])
    else if !readable then ReadError
    else if files[Main].Torn? then ParseError
    else Loaded(files[Main].rules)
  }

  /** From any crash point of a save, a reload yields exactly what it would have yielded before the
      save, or the complete new list, and the latter only after the rename. */
  lemma CrashDuringSave(rules: seq<RoutingRule>, tmp: Path, trace: seq<SaveState>, i: nat, after: Files)
    requires tmp.Temp? && SaveRun(rules, tmp, trace) && i < |trace| && CrashImage(trace[i].files, after)
    requires Main in trace[0].files ==> !trace[0].files[Main].Buffered?
    ensures Load(after, true) == if trace[i].pc.Saved? then Loaded(rules) else Load(trace[0].files, true)
    ensures Main in after ==> !after[Main].Buffered?
  {
    SaveRunAt(rules, tmp, trace, i);
  }

  // ---------- the program's form ----------

  /** The disk. Whether an effect succeeds is a parameter. Every effect is recorded in `log`, so that
      `log` holds every state a crash can meet. */
  class Disk {
    var files: Files
    ghost var log: seq<Files>

    ghost predicate Valid()
      reads this
    {
      log != [] && log[|log| - 1] == files
    }

    constructor ()
      ensures Valid() && files == map[]
    {
      files := map[];
      log := [map[]];
    }

    method Create(p: Path, ok: bool)
      requires Valid()
      modifies this
      ensures Valid()
      ensures log == old(log) + [files]
      ensures files == if ok then old(files)[p := Torn] else old(files)
    {
      if ok {
        files := files[p := Torn];
      }
      log := log + [files];
    }

    /** A failed write may leave part of the data behind. */
    method Write(p: Path, rules: seq<RoutingRule>, ok: bool)
      requires Valid() && p in files
      modifies this
      ensures Valid() && log == old(log) + [files]
      ensures files == old(files)[p := if ok then Buffered(rules) else Torn]
    {
      files := files[p := if ok then Buffered(rules) else Torn];
      log := log + [files];
    }

    method Sync(p: Path, ok: bool)
      requires Valid() && p in files
      modifies this
      ensures Valid() && log == old(log) + [files]
      ensures files == if ok then old(files)[p := SyncData(old(files)[p])] else old(files)
    {
      if ok {
        files := files[p := SyncData(files[p])];
      }
      log := log + [files];
    }

    method Rename(p: Path, q: Path, ok: bool)
      requires Valid() && p in files && p != q
      modifies this
      ensures Valid() && log == old(log) + [files]
      ensures files == if ok then (old(files) - {p})[q := old(files)[p]] else old(files)
    {
      if ok {
        files := (files - {p})[q := files[p]];
      }
      log := log + [files];
    }

    method Remove(p: Path, ok: bool)
      requires Valid()
      modifies this
      ensures Valid() && log == old(log) + [files]
      ensures files == if ok then old(files) - {p} else old(files)
    {
      if ok {
        files := files - {p};
      }
      log := log + [files];
    }
  }

  datatype SaveError = CreatingTemp | WritingTemp | SyncingTemp | Renaming

  /** What a save meets: the clock reading that names its temporary file, and which effects succeed. */
  datatype SaveIo = SaveIo(stamp: int, create: bool, write: bool, sync: bool, rename: bool, remove: bool)

  /** The first effect that fails. */
  function SaveFailure(io: SaveIo): Option<SaveError> {
    if !io.create then Some(CreatingTemp)
    else if !io.write then Some(WritingTemp)
    else if !io.sync then Some(SyncingTemp)
    else if !io.rename then Some(Renaming)
    else None
  }

  /** Two disks agree on every file but one. */
  ghost predicate SameBut(a: Files, b: Files, but: Path) {
    forall p | p != but :: (p in a <==> p in b) && (p in a ==> a[p] == b[p])
  }

  class Store {
    const disk: Disk

    constructor (d: Disk)
      ensures disk == d
    {
      disk := d;
    }

    method LoadRules(readable: bool) returns (r: LoadResult)
      ensures r == Load(disk.files, readable)
      ensures r.Loaded? <==> Main !in disk.files || (readable && !disk.files[Main].Torn?)
      ensures r.ParseError? <==> Main in disk.files && readable && disk.files[Main].Torn?
      ensures r.Loaded? ==> r.rules == if Main in disk.files then disk.files[Main].rules else []
    {
      if Main !in disk.files {
        return Loaded([]);
      }
      if !readable {
        return ReadError;
      }
      match disk.files[Main]
      case Torn => r := ParseError;
      case Buffered(rules) => r := Loaded(rules);
      case Whole(rules) => r := Loaded(rules);
    }

    /** The recorded disk states are a save run, so every crash point of this call is covered by
        `CrashDuringSave`. */
    method SaveRules(rules: seq<RoutingRule>, io: SaveIo) returns (err: Option<SaveError>, ghost trace: seq<SaveState>)
      requires disk.Valid()
      modifies disk
      ensures disk.Valid()
      ensures err == SaveFailure(io)
      ensures err.None? <==> io.create && io.write && io.sync && io.rename
      ensures err.Some? ==>
                match err.value
                case CreatingTemp => !io.create
                case WritingTemp => io.create && !io.write
                case SyncingTemp => io.create && io.write && !io.sync
                case Renaming => io.create && io.write && io.sync && !io.rename
      ensures Recorded(rules, Temp(io.stamp), trace, disk.log, |old(disk.log)| - 1)
      ensures trace[0].files == old(disk.files)
      ensures trace[|trace| - 1].pc == if err.None? then Saved else Failed
      ensures err.None? ==> disk.files == (old(disk.files) - {Temp(io.stamp)})[Main := Whole(rules)]
      ensures err.Some? ==> SameBut(disk.files, old(disk.files), Temp(io.stamp))
      ensures err.Some? && io.create && io.remove ==> Temp(io.stamp) !in disk.files
      ensures MainFile(disk.files) == if err.None? then Some(Whole(rules)) else MainFile(old(disk.files))
    {
      var tmp := Temp(io.stamp);
      ghost var n := |disk.log| - 1;
      err, trace := WriteTemp(rules, tmp, io);
      if err.Some? {
        return;
      }
      ghost var log := disk.log;
      disk.Rename(tmp, Main, io.rename);
      trace := Advance(rules, tmp, trace, log, n, if io.rename then Saved else CleanUp);
      if !io.rename {
        trace := Discard(rules, tmp, io, trace, n);
        return Some(Renaming), trace;
      }
    }

    /** The temporary file: created, written and synced, or removed again. */
    method WriteTemp(rules: seq<RoutingRule>, tmp: Path, io: SaveIo)
      returns (err: Option<SaveError>, ghost trace: seq<SaveState>)
      requires disk.Valid() && tmp.Temp?
      modifies disk
      ensures disk.Valid()
      ensures err == SaveFailure(io.(rename := true))
      ensures Recorded(rules, tmp, trace, disk.log, |old(disk.log)| - 1)
      ensures trace[0].files == old(disk.files)
      ensures trace[|trace| - 1] == SaveState(if err.None? then Synced else Failed, disk.files)
      ensures err.None? ==> tmp in disk.files && disk.files[tmp] == Whole(rules)
      ensures err.Some? && io.create && io.remove ==> tmp !in disk.files
      ensures SameBut(disk.files, old(disk.files), tmp)
    {
      ghost var n := |disk.log| - 1;
      trace := [SaveState(Begin, disk.files)];
      ghost var log := disk.log;
      disk.Create(tmp, io.create);
      trace := Advance(rules, tmp, trace, log, n, if io.create then Created else Failed);
      if !io.create {
        return Some(CreatingTemp), trace;
      }
      log := disk.log;
      disk.Write(tmp, rules, io.write);
      trace := Advance(rules, tmp, trace, log, n, if io.write then Written else CleanUp);
      if !io.write {
        trace := Discard(rules, tmp, io, trace, n);
        return Some(WritingTemp), trace;
      }
      log := disk.log;
      disk.Sync(tmp, io.sync);
      trace := Advance(rules, tmp, trace, log, n, if io.sync then Synced else CleanUp);
      if !io.sync {
        trace := Discard(rules, tmp, io, trace, n);
        return Some(SyncingTemp), trace;
      }
      return None, trace;
    }

    /** Removes the temporary file of a save that failed; the program ignores whether that works. */
    method Discard(rules: seq<RoutingRule>, tmp: Path, io: SaveIo, ghost trace: seq<SaveState>, ghost n: nat)
      returns (ghost more: seq<SaveState>)
      requires disk.Valid() && Recorded(rules, tmp, trace, disk.log, n)
      requires trace[|trace| - 1] == SaveState(CleanUp, disk.files)
      modifies disk
      ensures disk.Valid() && Recorded(rules, tmp, more, disk.log, n)
      ensures more[0] == trace[0] && more[|more| - 1] == SaveState(Failed, disk.files)
      ensures disk.files == if io.remove then old(disk.files) - {tmp} else old(disk.files)
    {
      ghost var log := disk.log;
      disk.Remove(tmp, io.remove);
      more := Advance(rules, tmp, trace, log, n, Failed);
    }

    /** Adds the disk state just reached to a recorded save. */
    ghost method Advance(
      rules: seq<RoutingRule>, tmp: Path, trace: seq<SaveState>, log: seq<Files>, n: nat, pc: SavePc)
      returns (more: seq<SaveState>)
      requires Recorded(rules, tmp, trace, log, n) && disk.log == log + [disk.files]
      requires SaveEffect(rules, tmp, trace[|trace| - 1], SaveState(pc, disk.files))
      ensures Recorded(rules, tmp, more, disk.log, n)
      ensures more[0] == trace[0] && more[|more| - 1] == SaveState(pc, disk.files)
    {
      more := trace + [SaveState(pc, disk.files)];
      RecordEffect(rules, tmp, trace, log, n, SaveState(pc, disk.files));
    }
  }
}
