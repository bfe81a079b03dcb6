/** Start-up recovery, shared by both programs (cmd/kvmain/main.go and
    cmd/kvserver/main.go): load the snapshot if there is one, replay the WAL
    on top if there is one, then open the WAL for appending. Also the
    durability facts that the command front ends rely on. */
module Recovery {
  import opened Wrappers
  import opened Disk
  import opened KvStore
  import opened KvWal
  import opened KvStorage

  const DataFile := "data/data.json"
  const WalFile := "data/data.wal"

  lemma FilesDistinct()
    ensures DataFile != WalFile && Tmp(DataFile) != WalFile && Tmp(DataFile) != DataFile
  {
    assert DataFile[10] != WalFile[10];
    assert |Tmp(DataFile)| != |WalFile| && |Tmp(DataFile)| != |DataFile|;
  }

  /** The map a restart would recover from `files`, or `None` when recovery
      would stop with an error: a snapshot that does not decode, or a WAL
      line that does not decode. A missing snapshot means the empty map; a
      missing WAL means nothing to replay. */
  function Recovered(files: map<string, Blob>): Option<map<string, string>>
  {
    var base := if DataFile in files then DecodeSnapshot(files[DataFile]) else Some(map[]);
    if base.None? then None
    else if WalFile !in files then base
    else
      var r := Replay(base.value, LinesOf(files[WalFile]));
      if r.ok then Some(r.data) else None
  }

  /** `data` is what a restart would rebuild from the files. */
  predicate Durable(files: map<string, Blob>, data: map<string, string>)
  {
    Recovered(files) == Some(data)
  }

  /** Recovery reads only the snapshot and the WAL. */
  lemma RecoveredLocal(f1: map<string, Blob>, f2: map<string, Blob>)
    requires DataFile in f1 <==> DataFile in f2
    requires DataFile in f1 ==> f1[DataFile] == f2[DataFile]
    requires WalFile in f1 <==> WalFile in f2
    requires WalFile in f1 ==> f1[WalFile] == f2[WalFile]
    ensures Recovered(f1) == Recovered(f2)
  {
  }

  /** With no files at all, a restart recovers the empty map. */
  lemma RecoveredFromNothing()
    ensures Durable(map[], map[])
  {
  }

  /** Logging a record and applying it to the state keeps them in step. */
  lemma DurableAfterAppend(files: map<string, Blob>, data: map<string, string>, e: Entry)
    requires Durable(files, data) && WalFile in files
    ensures Durable(Extended(files, WalFile, e), ApplyEntry(data, e))
  {
    FilesDistinct();
    var base := if DataFile in files then DecodeSnapshot(files[DataFile]) else Some(map[]);
    ReplaySnoc(base.value, LinesOf(files[WalFile]), e);
  }

  /** Writing a snapshot of the recovered state, whether or not the write
      gets through, leaves the recovered state as it was. When the snapshot
      replaces the old one, the WAL is still replayed on top of it at start-
      up; that is harmless because replay is idempotent. */
  lemma DurableAfterSnapshot(files: map<string, Blob>, data: map<string, string>, fault: SaveFault)
    requires Durable(files, data)
    ensures Durable(Saved(files, DataFile, data, fault), data)
  {
    FilesDistinct();
    var after := Saved(files, DataFile, data, fault);
    if fault != SaveSucceeds {
      RecoveredLocal(files, after);
    } else if WalFile in files {
      var base := if DataFile in files then DecodeSnapshot(files[DataFile]) else Some(map[]);
      ReplayIdempotent(base.value, LinesOf(files[WalFile]));
    }
  }

  /** The files after the REPL's checkpoint: a successful snapshot, then the
      WAL removed (unless that fails) and reopened (unless that fails). */
  function Checkpointed(files: map<string, Blob>, data: map<string, string>, removeFails: bool, reopenFails: bool): map<string, Blob>
  {
    var saved := Saved(files, DataFile, data, SaveSucceeds);
    var removed := if removeFails then saved else saved - {WalFile};
    if reopenFails || WalFile in removed then removed else removed[WalFile := Log([])]
  }

  /** A checkpoint keeps the recovered state, and when its steps succeed it
      leaves the snapshot holding the state and an empty WAL. */
  lemma DurableAfterCheckpoint(files: map<string, Blob>, data: map<string, string>, removeFails: bool, reopenFails: bool)
    requires Durable(files, data)
    ensures Durable(Checkpointed(files, data, removeFails, reopenFails), data)
    ensures var after := Checkpointed(files, data, removeFails, reopenFails);
            !removeFails && !reopenFails ==>
              DataFile in after && after[DataFile] == Snapshot(data) && WalFile in after && after[WalFile] == Log([])
  {
    FilesDistinct();
    DurableAfterSnapshot(files, data, SaveSucceeds);
  }

  /** A PUT whose sync fails leaves the record in the file while the store
      is not updated: after that the store and a restart disagree. */
  lemma SyncFailureBreaksDurability()
    ensures var files := map[WalFile := Log([])];
            Durable(files, map[]) && !Durable(Extended(files, WalFile, Entry(OpPut, "k", "v")), map[])
  {
    var files := map[WalFile := Log([])];
    FilesDistinct();
    var e := Entry(OpPut, "k", "v");
    assert Recovered(files) == Some(map[]);
    var after := Extended(files, WalFile, e);
    assert LinesOf(after[WalFile]) == [Record(e)];
    assert [Record(e)][1..] == [];
    assert Replay(map[], [Record(e)]) == Replayed(map["k" := "v"], true);
    assert "k" in map["k" := "v"];
  }

  /** Loading the snapshot alone ignores the records logged since, so the
      store can disagree with a restart. */
  lemma LoadBreaksDurability()
    ensures var files := map[DataFile := Snapshot(map[]), WalFile := Log([Record(Entry(OpPut, "k", "v"))])];
            Durable(files, map["k" := "v"]) && LoadResult(files, DataFile) == Decoded(map[]) && !Durable(files, map[])
  {
    FilesDistinct();
    var e := Entry(OpPut, "k", "v");
    var files := map[DataFile := Snapshot(map[]), WalFile := Log([Record(e)])];
    assert [Record(e)][1..] == [];
    assert Replay(map[], [Record(e)]) == Replayed(map["k" := "v"], true);
    assert Recovered(files) == Some(map["k" := "v"]);
    assert "k" in map["k" := "v"];
  }

  datatype RecoverError = SnapshotFailed(load: LoadError) | ReplayFailed(replay: ReplayError) | WalOpenFailed

  /** The start-up sequence. `openFails` stands for the operating system
      refusing to open the WAL. */
  method Recover(fs: FileSystem, openFails: bool) returns (store: Store, wal: Wal?, err: Option<RecoverError>)
    modifies fs
    ensures fresh(store) && store.Valid()
    ensures err.None? <==> Recovered(old(fs.files)).Some? && !openFails
    ensures err.None? ==> store.data == Recovered(old(fs.files)).value && Durable(fs.files, store.data)
    ensures err.None? ==> wal != null && fresh(wal) && wal.Valid() && wal.fs == fs && wal.path == WalFile && !wal.closed && !wal.broken
    ensures fs.files == if err.None? && WalFile !in old(fs.files) then old(fs.files)[WalFile := Log([])] else old(fs.files)
  {
    FilesDistinct();
    store := new Store();
    if DataFile in fs.files {
      var e := Load(store, fs, DataFile);
      if e.Some? {
        return store, null, Some(SnapshotFailed(e.value));
      }
    }
    if WalFile in fs.files {
      var e := ReplayWal(store, fs, WalFile);
      if e.Some? {
        return store, null, Some(ReplayFailed(e.value));
      }
    }
    wal := OpenWal(fs, WalFile, openFails);
    if wal == null {
      return store, null, Some(WalOpenFailed);
    }
    err := None;
  }
}
