/** The write-ahead log (internal/kv/wal.go): an append-only file of
    records, and its replay into a store. */
module KvWal {
  import opened Wrappers
  import opened Disk
  import opened KvStore

  /** Which step of an append the environment makes fail, if any. The steps
      run in the order encode, write, flush, sync. */
  datatype AppendFault = NoFault | EncodeFails | WriteFails | FlushFails | SyncFails

  datatype WalError = EncodeError | WriteError | FlushError | SyncError

  datatype ReplayError = OpenError | DecodeError

  /** The files after `e` has been appended as one line to the file at `path`. */
  function Extended(files: map<string, Blob>, path: string, e: Entry): map<string, Blob>
    requires path in files
  {
    files[path := Log(LinesOf(files[path]) + [Record(e)])]
  }

  /** An append reaches the file when encoding, writing and flushing all
      succeed: on a healthy, open handle, with no fault or a sync fault. */
  predicate Reaches(fault: AppendFault, broken: bool, closed: bool)
  {
    !broken && !closed && (fault == NoFault || fault == SyncFails)
  }

  /** Whether the buffered writer has broken after an append: a write or
      flush failure, or a flush on a closed file, breaks it; an encoding
      failure happens before the writer is used. */
  predicate BrokenAfter(fault: AppendFault, broken: bool, closed: bool)
  {
    if fault == EncodeFails then broken
    else broken || closed || fault == WriteFails || fault == FlushFails
  }

  /** The error a failing append reports: the first step that fails, where a
      broken writer fails the write and a closed file fails the flush. */
  function AppendErrorOf(fault: AppendFault, broken: bool, closed: bool): WalError
  {
    if fault == EncodeFails then EncodeError
    else if broken || fault == WriteFails then WriteError
    else if closed || fault == FlushFails then FlushError
    else SyncError
  }

  /** An open WAL: a file handle with a buffered writer in front of it. */
  class Wal {
    const fs: FileSystem
    const path: string
    /** The file has been closed. */
    var closed: bool
    /** The buffered writer has met an error; Go's `bufio.Writer` keeps it
        and fails every later write and flush. */
    var broken: bool

    /** An open handle's file is present. */
    ghost predicate Valid()
      reads this, fs
    {
      closed || path in fs.files
    }

    constructor (fs: FileSystem, path: string)
      requires path in fs.files
      ensures Valid()
      ensures this.fs == fs && this.path == path && !closed && !broken
    {
      this.fs := fs;
      this.path := path;
      closed := false;
      broken := false;
    }

    /** Logs a PUT of `value` under `key`. */
    method AppendPut(key: string, value: string, fault: AppendFault) returns (err: Option<WalError>)
      requires Valid()
      modifies this, fs
      ensures Valid() && closed == old(closed)
      ensures fs.files == if Reaches(fault, old(broken), old(closed))
                          then Extended(old(fs.files), path, Entry(OpPut, key, value))
                          else old(fs.files)
      ensures err.None? <==> Reaches(fault, old(broken), old(closed)) && fault == NoFault
      ensures err.Some? ==> err.value == AppendErrorOf(fault, old(broken), old(closed))
      ensures broken == BrokenAfter(fault, old(broken), old(closed))
    {
      err := Append(Entry(OpPut, key, value), fault);
    }

    /** Logs a DELETE of `key`; the value is left empty. */
    method AppendDelete(key: string, fault: AppendFault) returns (err: Option<WalError>)
      requires Valid()
      modifies this, fs
      ensures Valid() && closed == old(closed)
      ensures fs.files == if Reaches(fault, old(broken), old(closed))
                          then Extended(old(fs.files), path, Entry(OpDelete, key, ""))
                          else old(fs.files)
      ensures err.None? <==> Reaches(fault, old(broken), old(closed)) && fault == NoFault
      ensures err.Some? ==> err.value == AppendErrorOf(fault, old(broken), old(closed))
      ensures broken == BrokenAfter(fault, old(broken), old(closed))
    {
      err := Append(Entry(OpDelete, key, ""), fault);
    }

    /** Encodes `e`, writes it with its newline, flushes the buffer and
      syncs the file, stopping at the first step that fails. A sync failure
      comes after the flush, so the line is already in the file. */
    method Append(e: Entry, fault: AppendFault) returns (err: Option<WalError>)
      requires Valid()
      modifies this, fs
      ensures Valid() && closed == old(closed)
      ensures fs.files == if Reaches(fault, old(broken), old(closed))
                          then Extended(old(fs.files), path, e)
                          else old(fs.files)
      ensures err.None? <==> Reaches(fault, old(broken), old(closed)) && fault == NoFault
      ensures fault == EncodeFails ==> err == Some(EncodeError) && broken == old(broken)
      ensures fault != EncodeFails && (old(broken) || fault == WriteFails) ==> err == Some(WriteError) && broken
      ensures fault != EncodeFails && !old(broken) && fault != WriteFails && (old(closed) || fault == FlushFails) ==>
                err == Some(FlushError) && broken
      ensures Reaches(fault, old(broken), old(closed)) ==> !broken && (fault == SyncFails <==> err == Some(SyncError))
      ensures err.Some? ==> err.value == AppendErrorOf(fault, old(broken), old(closed))
      ensures broken == BrokenAfter(fault, old(broken), old(closed))
    {
      if fault == EncodeFails {
        return Some(EncodeError);
      }
      if broken || fault == WriteFails {
        broken := true;
        return Some(WriteError);
      }
      if closed || fault == FlushFails {
        broken := true;
        return Some(FlushError);
      }
      fs.files := Extended(fs.files, path, e);
      if fault == SyncFails {
        return Some(SyncError);
      }
      return None;
    }

    /** Closes the file; later appends fail at the flush. */
    method Close()
      modifies this
      ensures closed && broken == old(broken)
    {
      closed := true;
    }
  }

  /** OpenWAL: opens the file at `path` for appending, creating it empty if
      it is absent and never truncating it. `fails` stands for the
      operating system refusing; then no handle is returned. */
  method OpenWal(fs: FileSystem, path: string, fails: bool) returns (w: Wal?)
    modifies fs
    ensures fails ==> w == null && fs.files == old(fs.files)
    ensures !fails ==> w != null && fresh(w) && w.Valid() && w.fs == fs && w.path == path && !w.closed && !w.broken
    ensures !fails ==> fs.files == if path in old(fs.files) then old(fs.files) else old(fs.files)[path := Log([])]
  {
    if fails {
      return null;
    }
    if path !in fs.files {
      fs.files := fs.files[path := Log([])];
    }
    w := new Wal(fs, path);
  }

  /** What one record does to the map: PUT writes, DELETE removes, any other
      operation name is ignored. */
  function ApplyEntry(data: map<string, string>, e: Entry): map<string, string>
  {
    if e.op == OpPut then data[e.key := e.value]
    else if e.op == OpDelete then data - {e.key}
    else data
  }

  /** The outcome of a replay: the map reached, and whether every line
      decoded. */
  datatype Replayed = Replayed(data: map<string, string>, ok: bool)

  /** Replay as a left fold over the lines; the first line that does not
      decode stops it, keeping what the earlier lines did. */
  function Replay(data: map<string, string>, log: seq<Line>): Replayed
    decreases |log|
  {
    if log == [] then Replayed(data, true)
    else match log[0]
      case Garbage => Replayed(data, false)
      case Record(e) => Replay(ApplyEntry(data, e), log[1..])
  }

  predicate WellFormed(log: seq<Line>)
  {
    forall i :: 0 <= i < |log| ==> log[i].Record?
  }

  /** A replay succeeds exactly when every line decodes. */
  lemma {:induction false} ReplayOk(data: map<string, string>, log: seq<Line>)
    ensures Replay(data, log).ok <==> WellFormed(log)
    decreases |log|
  {
    if log != [] && log[0].Record? {
      ReplayOk(ApplyEntry(data, log[0].entry), log[1..]);
      assert forall i :: 1 <= i < |log| ==> log[i] == log[1..][i - 1];
    }
  }

  /** Replaying `l1 + l2` is replaying `l2` on the result of replaying `l1`,
      unless `l1` already stopped. */
  lemma {:induction false} ReplayConcat(data: map<string, string>, l1: seq<Line>, l2: seq<Line>)
    ensures Replay(data, l1 + l2) ==
            (var r := Replay(data, l1); if r.ok then Replay(r.data, l2) else r)
    decreases |l1|
  {
    if l1 == [] {
      assert l1 + l2 == l2;
    } else {
      assert (l1 + l2)[0] == l1[0];
      assert (l1 + l2)[1..] == l1[1..] + l2;
      if l1[0].Record? {
        ReplayConcat(ApplyEntry(data, l1[0].entry), l1[1..], l2);
      }
    }
  }

  /** A malformed line ends the replay with an error; the lines before it
      stay applied and the lines after it are never read. */
  lemma ReplayStopsAtGarbage(data: map<string, string>, l1: seq<Line>, l2: seq<Line>)
    requires WellFormed(l1)
    ensures Replay(data, l1 + [Garbage] + l2) == Replayed(Replay(data, l1).data, false)
  {
    ReplayOk(data, l1);
    ReplayConcat(data, l1, [Garbage] + l2);
    assert l1 + [Garbage] + l2 == l1 + ([Garbage] + l2);
  }

  /** Appending one record to a log that replays cleanly applies that
      record on top. */
  lemma ReplaySnoc(data: map<string, string>, log: seq<Line>, e: Entry)
    requires Replay(data, log).ok
    ensures Replay(data, log + [Record(e)]) == Replayed(ApplyEntry(Replay(data, log).data, e), true)
  {
    ReplayConcat(data, log, [Record(e)]);
    assert [Record(e)][1..] == [];
  }

  /** The net effect of a log on each key it mentions: the last write, or
      `None` when the last record on the key deletes it. */
  function Effect(log: seq<Line>): map<string, Option<string>>
    decreases |log|
  {
    if log == [] || log[0].Garbage? then map[]
    else EntryEffect(log[0].entry) + Effect(log[1..])
  }

  function EntryEffect(e: Entry): map<string, Option<string>>
  {
    if e.op == OpPut then map[e.key := Some(e.value)]
    else if e.op == OpDelete then map[e.key := None]
    else map[]
  }

  /** `data` with the effects `eff` laid over it. */
  function Overlay(data: map<string, string>, eff: map<string, Option<string>>): map<string, string>
  {
    map k | k in data.Keys + eff.Keys && (k in eff ==> eff[k].Some?) ::
      if k in eff then eff[k].value else data[k]
  }

  lemma OverlayCompose(data: map<string, string>, e1: map<string, Option<string>>, e2: map<string, Option<string>>)
    ensures Overlay(Overlay(data, e1), e2) == Overlay(data, e1 + e2)
  {
    var a, b := Overlay(Overlay(data, e1), e2), Overlay(data, e1 + e2);
    assert a.Keys == b.Keys;
  }

  lemma ApplyIsOverlay(data: map<string, string>, e: Entry)
    ensures ApplyEntry(data, e) == Overlay(data, EntryEffect(e))
  {
    var a, b := ApplyEntry(data, e), Overlay(data, EntryEffect(e));
    assert a.Keys == b.Keys;
  }

  /** Last writer wins: a clean replay lays the log's net effect over the
      starting map. */
  lemma {:induction false} ReplayIsOverlay(data: map<string, string>, log: seq<Line>)
    requires Replay(data, log).ok
    ensures Replay(data, log).data == Overlay(data, Effect(log))
    decreases |log|
  {
    if log == [] {
      assert Overlay(data, map[]) == data;
    } else {
      var e := log[0].entry;
      ReplayIsOverlay(ApplyEntry(data, e), log[1..]);
      ApplyIsOverlay(data, e);
      OverlayCompose(data, EntryEffect(e), Effect(log[1..]));
    }
  }

  /** Replaying a log a second time, on the state it produced, changes
      nothing. This is why a snapshot of that state plus the same log
      recovers the same state. */
  lemma ReplayIdempotent(data: map<string, string>, log: seq<Line>)
    requires Replay(data, log).ok
    ensures Replay(Replay(data, log).data, log) == Replay(data, log)
  {
    var r := Replay(data, log).data;
    ReplayOk(data, log);
    ReplayOk(r, log);
    ReplayIsOverlay(data, log);
    ReplayIsOverlay(r, log);
    OverlayCompose(data, Effect(log), Effect(log));
    assert Effect(log) + Effect(log) == Effect(log);
  }

  /** Replaying the same log into two empty stores gives the same map and,
      the index being a function of the map, the same index. */
  lemma ReplayDeterministic(log: seq<Line>, data1: map<string, string>, keys1: seq<string>, data2: map<string, string>, keys2: seq<string>)
    requires data1 == Replay(map[], log).data && Indexed(data1, keys1)
    requires data2 == Replay(map[], log).data && Indexed(data2, keys2)
    ensures data1 == data2 && keys1 == keys2
  {
    IndexDetermined(data1, keys1, keys2);
  }

  /** ReplayWAL: reads the file at `path` line by line and applies each
      record to `store` with Put or Delete, stopping at a line that does
      not decode. */
  method ReplayWal(store: Store, fs: FileSystem, path: string) returns (err: Option<ReplayError>)
    requires store.Valid()
    modifies store
    ensures store.Valid()
    ensures path !in fs.files ==>
              err == Some(OpenError) && store.data == old(store.data) && store.keys == old(store.keys)
    ensures path in fs.files ==>
              var r := Replay(old(store.data), LinesOf(fs.files[path]));
              store.data == r.data && (err.None? <==> r.ok) && (err.Some? ==> err == Some(DecodeError))
  {
    if path !in fs.files {
      return Some(OpenError);
    }
    var lines := LinesOf(fs.files[path]);
    var i := 0;
    while i < |lines|
      invariant 0 <= i <= |lines|
      invariant store.Valid()
      invariant Replay(old(store.data), lines) == Replay(store.data, lines[i..])
    {
      assert lines[i..][0] == lines[i] && lines[i..][1..] == lines[i + 1..];
      match lines[i]
      case Garbage =>
        return Some(DecodeError);
      case Record(e) =>
        if e.op == OpPut {
          store.Put(e.key, e.value);
        } else if e.op == OpDelete {
          var _ := store.Delete(e.key);
        }
      i := i + 1;
    }
    return None;
  }
}
