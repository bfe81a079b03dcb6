/** Snapshots (internal/kv/storage.go): the whole map written to a file
    through a temporary file and a rename, and read back with the index
    rebuilt. */
module KvStorage {
  import opened Wrappers
  import opened Lex
  import opened Disk
  import opened KvStore

  /** Which step of a save the environment makes fail, if any. */
  datatype SaveFault = SaveSucceeds | MarshalFails | TmpWriteFails | RenameFails

  datatype SaveError = MarshalFailed | TmpWriteFailed | RenameFailed

  datatype LoadError = ReadFailed | UnmarshalFailed

  /** The temporary file a save writes first. */
  function Tmp(path: string): string
  {
    path + ".tmp"
  }

  /** The files after a save of `data` to `path`. Marshalling fails before
      anything is written; a failed write may leave a partial temporary file;
      a failed rename leaves the complete temporary file; a successful rename
      moves it over the target. */
  function Saved(files: map<string, Blob>, path: string, data: map<string, string>, fault: SaveFault): map<string, Blob>
  {
    match fault
    case SaveSucceeds => (files - {Tmp(path)})[path := Snapshot(data)]
    case MarshalFails => files
    case TmpWriteFails => files[Tmp(path) := Junk]
    case RenameFails => files[Tmp(path) := Snapshot(data)]
  }

  /** The map a snapshot file decodes to. */
  function DecodeSnapshot(b: Blob): Option<map<string, string>>
  {
    if b.Snapshot? then Some(b.data) else None
  }

  /** What Load reads from `path`: the decoded map, or why there is none. */
  datatype Loaded = Decoded(data: map<string, string>) | Failed(error: LoadError)

  function LoadResult(files: map<string, Blob>, path: string): Loaded
  {
    if path !in files then Failed(ReadFailed)
    else match DecodeSnapshot(files[path])
      case None => Failed(UnmarshalFailed)
      case Some(m) => Decoded(m)
  }

  /** The rename makes a save atomic: the target holds either what it held
      before or the complete new snapshot, never a partial one; and no file
      other than the target and its temporary file changes. */
  lemma SaveAtomic(files: map<string, Blob>, path: string, data: map<string, string>, fault: SaveFault)
    ensures var after := Saved(files, path, data, fault);
            if fault == SaveSucceeds then path in after && after[path] == Snapshot(data) && Tmp(path) !in after
            else (path in after <==> path in files) && (path in files ==> after[path] == files[path])
    ensures var after := Saved(files, path, data, fault);
            forall p :: p != path && p != Tmp(path) ==> (p in after <==> p in files) && (p in files ==> after[p] == files[p])
  {
    assert path != Tmp(path) by { assert |Tmp(path)| == |path| + 4; }
  }

  /** A successful save followed by a load reads back the saved map, and
      the index Load rebuilds for it is the index the store had. */
  lemma SaveLoadRoundTrip(files: map<string, Blob>, path: string, data: map<string, string>, keys: seq<string>, rebuilt: seq<string>)
    requires Indexed(data, keys)
    requires Indexed(LoadResult(Saved(files, path, data, SaveSucceeds), path).data, rebuilt)
    ensures LoadResult(Saved(files, path, data, SaveSucceeds), path) == Decoded(data)
    ensures rebuilt == keys
  {
    IndexDetermined(data, keys, rebuilt);
  }

  /** Save: writes a snapshot of the store's map; the store is only read. */
  method Save(s: Store, fs: FileSystem, path: string, fault: SaveFault) returns (err: Option<SaveError>)
    modifies fs
    ensures fs.files == Saved(old(fs.files), path, s.data, fault)
    ensures err.None? <==> fault == SaveSucceeds
    ensures fault == MarshalFails ==> err == Some(MarshalFailed)
    ensures fault == TmpWriteFails ==> err == Some(TmpWriteFailed)
    ensures fault == RenameFails ==> err == Some(RenameFailed)
  {
    var tmp := Tmp(path);
    var data := s.data;
    if fault == MarshalFails {
      return Some(MarshalFailed);
    }
    if fault == TmpWriteFails {
      fs.files := fs.files[tmp := Junk];
      return Some(TmpWriteFailed);
    }
    fs.files := fs.files[tmp := Snapshot(data)];
    if fault == RenameFails {
      return Some(RenameFailed);
    }
    fs.files := (fs.files - {tmp})[path := fs.files[tmp]];
    assert fs.files == (old(fs.files) - {tmp})[path := Snapshot(data)];
    return None;
  }

  /** Load: reads and decodes the snapshot at `path`; on success it replaces
      the map and rebuilds the index from the new map's keys, on failure it
      leaves the store as it was. */
  method Load(s: Store, fs: FileSystem, path: string) returns (err: Option<LoadError>)
    modifies s
    ensures LoadResult(fs.files, path).Failed? ==>
              err == Some(LoadResult(fs.files, path).error) && s.data == old(s.data) && s.keys == old(s.keys)
    ensures LoadResult(fs.files, path).Decoded? ==>
              err == None && s.data == LoadResult(fs.files, path).data && s.Valid()
  {
    if path !in fs.files {
      return Some(ReadFailed);
    }
    var decoded := DecodeSnapshot(fs.files[path]);
    if decoded.None? {
      return Some(UnmarshalFailed);
    }
    var m := decoded.value;
    s.data := m;
    // Go visits the keys of a map in an unspecified order; any order will do.
    var rest := m.Keys;
    var ks: seq<string> := [];
    while rest != {}
      invariant rest <= m.Keys
      invariant forall k :: k in ks <==> k in m && k !in rest
      invariant Distinct(ks)
      decreases |rest|
    {
      var k :| k in rest;
      assert k !in ks;
      ks := ks + [k];
      rest := rest - {k};
    }
    SortDistinct(ks);
    s.keys := SortStrings(ks);
    return None;
  }
}
