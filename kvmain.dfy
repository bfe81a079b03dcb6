/** The interactive front end (cmd/kvmain/main.go): each input line is
    parsed into a command, checked for its number of arguments and
    dispatched against the store, the WAL and the snapshot. */
module KvMain {
  import opened Wrappers
  import opened Text
  import opened Disk
  import opened KvStore
  import opened KvWal
  import opened KvStorage
  import opened Recovery

  datatype Command = Command(name: string, args: seq<string>)

  datatype Parsed = Parsed(cmd: Command) | ParseFailed(msg: string)

  /** parseCommand: the first field, upper-cased, names the command; the
      other fields are its arguments. */
  function ParseCommand(line: string): (r: Parsed)
    ensures r.ParseFailed? <==> AllSpace(line)
    ensures r.ParseFailed? ==> r.msg == "empty command"
    ensures r.Parsed? ==>
              |Fields(line)| > 0 && r.cmd.name == ToUpper(Fields(line)[0]) && r.cmd.args == Fields(line)[1..]
    ensures r.Parsed? ==> forall i :: 0 <= i < |r.cmd.args| ==> IsField(r.cmd.args[i])
  {
    var t := TrimSpace(line);
    BlankLine(line);
    FieldsOfTrim(line);
    FieldsAreFields(line);
    if t == "" then ParseFailed("empty command")
    else
      var parts := Fields(t);
      Parsed(Command(ToUpper(parts[0]), parts[1..]))
  }

  /** A command typed as its fields separated by single spaces parses back
      to those fields, with the name upper-cased. */
  lemma ParseJoined(name: string, args: seq<string>)
    requires IsField(name) && forall i :: 0 <= i < |args| ==> IsField(args[i])
    ensures ParseCommand(Join([name] + args, " ")) == Parsed(Command(ToUpper(name), args))
  {
    var parts := [name] + args;
    FieldsOfJoin(parts);
    BlankLine(Join(parts, " "));
    assert parts[1..] == args;
  }

  /** Upper-casing makes the command name case-insensitive. */
  lemma NameCaseInsensitive(line: string)
    requires ParseCommand(line).Parsed?
    ensures ToUpper(ParseCommand(line).cmd.name) == ParseCommand(line).cmd.name
  {
    ToUpperIdempotent(Fields(line)[0]);
  }

  const PutNames: set<string> := {"PUT", "SET"}
  const DeleteNames: set<string> := {"DELETE", "DEL", "RM"}
  const BareNames: set<string> := {"SAVE", "LOAD", "HELP", "EXIT", "QUIT", "Q"}
  const ExitNames: set<string> := {"EXIT", "QUIT", "Q"}

  /** validateCommand: the number of arguments each command takes, with the
      message for each violation. */
  function ValidateCommand(c: Command): (r: Option<string>)
    ensures c.name in PutNames ==> (r.None? <==> |c.args| >= 2)
    ensures c.name == "GET" ==> (r.None? <==> |c.args| == 1)
    ensures c.name in DeleteNames ==> (r.None? <==> |c.args| == 1)
    ensures c.name in BareNames ==> (r.None? <==> |c.args| == 0)
    ensures c.name !in PutNames + {"GET"} + DeleteNames + BareNames ==>
              r == Some("unknown command: " + c.name + " (type HELP)")
  {
    if c.name in PutNames then
      if |c.args| < 2 then Some("PUT requires at least 2 arguments: PUT <key> <value>") else None
    else if c.name == "GET" then
      if |c.args| != 1 then Some("GET requires exactly 1 argument: GET <key>") else None
    else if c.name in DeleteNames then
      if |c.args| != 1 then Some("DELETE requires exactly 1 argument: DELETE <key>") else None
    else if c.name in BareNames then
      if |c.args| != 0 then Some(c.name + " takes no arguments") else None
    else Some("unknown command: " + c.name + " (type HELP)")
  }

  /** What the REPL reports for one line. `NilWal` is the crash that follows
      when a failed reopen after SAVE has left the WAL variable nil. */
  datatype Reply =
    | Done
    | Found(value: string)
    | NotFound
    | WalFailed(wal: WalError)
    | SaveFailed(save: SaveError)
    | SnapshotSaved
    | LoadFailed(load: LoadError)
    | SnapshotLoaded
    | HelpShown
    | Goodbye
    | Rejected(msg: string)
    | NilWal

  /** The environment's answers to the fallible steps of one command. */
  datatype Faults = Faults(append: AppendFault, save: SaveFault, removeFails: bool, reopenFails: bool)

  /** The REPL's standing assumptions: a valid store and, while there is
      one, an open handle on the WAL file. */
  ghost predicate Healthy(store: Store, wal: Wal?, fs: FileSystem)
    reads store, wal, fs
  {
    store.Valid() && (wal != null ==> wal.fs == fs && wal.path == WalFile && !wal.closed && wal.Valid())
  }

  /** The command that replaces the store from the snapshot alone. */
  predicate IsLoad(line: string)
  {
    ParseCommand(line).Parsed? && ParseCommand(line).cmd.name == "LOAD"
  }

  /** What the REPL's switch does with one validated command, between the
      state before it and the state after it. Every mutation is logged
      before the store changes, and the store changes only when logging
      succeeded. The WAL writer breaks only by a PUT's or DELETE's append, and
      only a successful SAVE closes the handle and may replace it; every
      other command keeps it. */
  twostate predicate Dispatched(c: Command, store: Store, wal: Wal?, new next: Wal?, fs: FileSystem, f: Faults, reply: Reply)
    requires ValidateCommand(c).None?
    requires wal != null ==> WalFile in old(fs.files)
    reads store, wal, fs
  {
    (c.name != "SAVE" || f.save != SaveSucceeds ==> next == wal) &&
    (wal != null ==>
       wal.broken == (if c.name in PutNames + DeleteNames then BrokenAfter(f.append, old(wal.broken), false)
                      else old(wal.broken)) &&
       wal.closed == (old(wal.closed) || (c.name == "SAVE" && f.save == SaveSucceeds))) &&
    (c.name in PutNames ==>
       var e := Entry(OpPut, c.args[0], Join(c.args[1..], " "));
       if wal == null then reply == NilWal && fs.files == old(fs.files) && store.data == old(store.data)
       else
         var lands := Reaches(f.append, old(wal.broken), false);
         fs.files == (if lands then Extended(old(fs.files), WalFile, e) else old(fs.files)) &&
         (reply == Done <==> lands && f.append == NoFault) &&
         (reply != Done ==> reply == WalFailed(AppendErrorOf(f.append, old(wal.broken), false))) &&
         store.data == (if reply == Done then old(store.data)[e.key := e.value] else old(store.data))) &&
    (c.name == "GET" ==>
       fs.files == old(fs.files) && store.data == old(store.data) && store.keys == old(store.keys) &&
       reply == (if c.args[0] in store.data then Found(store.data[c.args[0]]) else NotFound)) &&
    (c.name in DeleteNames ==>
       var key := c.args[0];
       if wal == null then reply == NilWal && fs.files == old(fs.files) && store.data == old(store.data)
       else
         var lands := Reaches(f.append, old(wal.broken), false);
         fs.files == (if lands then Extended(old(fs.files), WalFile, Entry(OpDelete, key, "")) else old(fs.files)) &&
         if lands && f.append == NoFault then
           store.data == old(store.data) - {key} && reply == (if key in old(store.data) then Done else NotFound)
         else
           store.data == old(store.data) && reply == WalFailed(AppendErrorOf(f.append, old(wal.broken), false))) &&
    (c.name == "SAVE" ==>
       store.data == old(store.data) &&
       (f.save != SaveSucceeds ==>
          fs.files == Saved(old(fs.files), DataFile, old(store.data), f.save) &&
          reply == SaveFailed(if f.save == MarshalFails then MarshalFailed
                              else if f.save == TmpWriteFails then TmpWriteFailed else RenameFailed)) &&
       (f.save == SaveSucceeds && wal == null ==>
          fs.files == Saved(old(fs.files), DataFile, old(store.data), SaveSucceeds) && reply == NilWal) &&
       (f.save == SaveSucceeds && wal != null ==>
          fs.files == Checkpointed(old(fs.files), old(store.data), f.removeFails, f.reopenFails) &&
          reply == SnapshotSaved && (next == null <==> f.reopenFails))) &&
    (c.name == "LOAD" ==>
       fs.files == old(fs.files) &&
       match LoadResult(old(fs.files), DataFile)
       case Decoded(m) => store.data == m && reply == SnapshotLoaded
       case Failed(e) => store.data == old(store.data) && store.keys == old(store.keys) && reply == LoadFailed(e)) &&
    (c.name == "HELP" || c.name in ExitNames ==>
       fs.files == old(fs.files) && store.data == old(store.data) && store.keys == old(store.keys) &&
       reply == (if c.name == "HELP" then HelpShown else Goodbye))
  }

  /** The body of the REPL's switch for one validated command. */
  method Dispatch(c: Command, store: Store, wal: Wal?, fs: FileSystem, f: Faults) returns (next: Wal?, reply: Reply)
    requires ValidateCommand(c).None?
    requires Healthy(store, wal, fs)
    modifies store, wal, fs
    ensures Healthy(store, next, fs)
    ensures next == wal || (c.name == "SAVE" && (next == null || (fresh(next) && !next.broken)))
    ensures Durable(old(fs.files), old(store.data)) && c.name != "LOAD" && f.append != SyncFails ==>
              Durable(fs.files, store.data)
    ensures Dispatched(c, store, wal, next, fs, f, reply)
  {
    FilesDistinct();
    next := wal;
    if c.name in PutNames {
      var key, value := c.args[0], Join(c.args[1..], " ");
      if wal == null {
        return null, NilWal;
      }
      var err := wal.AppendPut(key, value, f.append);
      if err.Some? {
        return wal, WalFailed(err.value);
      }
      if Durable(old(fs.files), old(store.data)) {
        DurableAfterAppend(old(fs.files), old(store.data), Entry(OpPut, key, value));
      }
      store.Put(key, value);
      reply := Done;
    } else if c.name == "GET" {
      var v, ok := store.Get(c.args[0]);
      reply := if ok then Found(v) else NotFound;
    } else if c.name in DeleteNames {
      var key := c.args[0];
      if wal == null {
        return null, NilWal;
      }
      var err := wal.AppendDelete(key, f.append);
      if err.Some? {
        return wal, WalFailed(err.value);
      }
      if Durable(old(fs.files), old(store.data)) {
        DurableAfterAppend(old(fs.files), old(store.data), Entry(OpDelete, key, ""));
      }
      var found := store.Delete(key);
      reply := if found then Done else NotFound;
    } else if c.name == "SAVE" {
      var err := Save(store, fs, DataFile, f.save);
      if err.Some? {
        if Durable(old(fs.files), old(store.data)) {
          DurableAfterSnapshot(old(fs.files), old(store.data), f.save);
        }
        return wal, SaveFailed(err.value);
      }
      if wal == null {
        if Durable(old(fs.files), old(store.data)) {
          DurableAfterSnapshot(old(fs.files), old(store.data), SaveSucceeds);
        }
        return null, NilWal;
      }
      if Durable(old(fs.files), old(store.data)) {
        DurableAfterCheckpoint(old(fs.files), old(store.data), f.removeFails, f.reopenFails);
      }
      wal.Close();
      fs.Remove(WalFile, f.removeFails);
      next := OpenWal(fs, WalFile, f.reopenFails);
      reply := SnapshotSaved;
    } else if c.name == "LOAD" {
      var err := Load(store, fs, DataFile);
      reply := if err.Some? then LoadFailed(err.value) else SnapshotLoaded;
    } else if c.name == "HELP" {
      reply := HelpShown;
    } else {
      reply := Goodbye;
    }
  }

  /** One turn of the REPL: parse, validate, dispatch. A line that does not
      parse or validate changes nothing. */
  method ReplStep(line: string, store: Store, wal: Wal?, fs: FileSystem, f: Faults) returns (next: Wal?, reply: Reply)
    requires Healthy(store, wal, fs)
    modifies store, wal, fs
    ensures Healthy(store, next, fs)
    ensures next == wal || next == null || (fresh(next) && !next.broken)
    ensures AllSpace(line) ==>
              reply == Rejected("empty command") && next == wal &&
              fs.files == old(fs.files) && store.data == old(store.data) && store.keys == old(store.keys)
    ensures ParseCommand(line).Parsed? && ValidateCommand(ParseCommand(line).cmd).Some? ==>
              reply == Rejected(ValidateCommand(ParseCommand(line).cmd).value) && next == wal &&
              fs.files == old(fs.files) && store.data == old(store.data) && store.keys == old(store.keys)
    ensures ParseCommand(line).Parsed? && ValidateCommand(ParseCommand(line).cmd).None? ==>
              Dispatched(ParseCommand(line).cmd, store, wal, next, fs, f, reply)
    ensures Durable(old(fs.files), old(store.data)) && !IsLoad(line) && f.append != SyncFails ==>
              Durable(fs.files, store.data)
  {
    var parsed := ParseCommand(line);
    if parsed.ParseFailed? {
      return wal, Rejected(parsed.msg);
    }
    var invalid := ValidateCommand(parsed.cmd);
    if invalid.Some? {
      return wal, Rejected(invalid.value);
    }
    next, reply := Dispatch(parsed.cmd, store, wal, fs, f);
  }

  /** One turn as the REPL loop relies on it: ReplStep's contract cut down
      to the standing assumptions and durability. */
  method Turn(line: string, store: Store, wal: Wal?, fs: FileSystem, f: Faults) returns (next: Wal?, reply: Reply)
    requires Healthy(store, wal, fs)
    modifies store, wal, fs
    ensures Healthy(store, next, fs)
    ensures next == wal || next == null || (fresh(next) && !next.broken)
    ensures Durable(old(fs.files), old(store.data)) && !IsLoad(line) && f.append != SyncFails ==>
              Durable(fs.files, store.data)
  {
    next, reply := ReplStep(line, store, wal, fs, f);
  }

  /** The lines of a session that neither reload the snapshot nor meet a
      failed sync. */
  predicate Benign(lines: seq<string>, faults: seq<Faults>)
    requires |faults| == |lines|
  {
    |lines| == 0 ||
    (Benign(lines[..|lines| - 1], faults[..|lines| - 1]) &&
     !IsLoad(lines[|lines| - 1]) && faults[|lines| - 1].append != SyncFails)
  }

  lemma BenignPrefix(lines: seq<string>, faults: seq<Faults>, i: nat)
    requires |faults| == |lines| && i < |lines|
    ensures Benign(lines[..i + 1], faults[..i + 1]) <==>
            Benign(lines[..i], faults[..i]) && !IsLoad(lines[i]) && faults[i].append != SyncFails
  {
    assert lines[..i + 1][..i] == lines[..i] && faults[..i + 1][..i] == faults[..i];
  }

  lemma {:induction false} BenignPrefixOfAll(lines: seq<string>, faults: seq<Faults>, i: nat)
    requires |faults| == |lines| && i <= |lines|
    ensures Benign(lines, faults) ==> Benign(lines[..i], faults[..i])
    decreases |lines|
  {
    if i < |lines| {
      var n := |lines| - 1;
      BenignPrefixOfAll(lines[..n], faults[..n], i);
      assert lines[..n][..i] == lines[..i] && faults[..n][..i] == faults[..i];
    } else {
      assert lines[..i] == lines && faults[..i] == faults;
    }
  }

  /** The REPL loop over the lines read from standard input. It ends at the
      end of input, after an exit command, or at the crash a nil WAL causes;
      as long as no line reloads the snapshot and no sync fails, a restart
      would recover exactly the store's state. */
  method Session(store: Store, wal: Wal?, fs: FileSystem, lines: seq<string>, faults: seq<Faults>) returns (replies: seq<Reply>)
    requires |faults| == |lines|
    requires Healthy(store, wal, fs)
    modifies store, wal, fs
    ensures store.Valid()
    ensures |replies| <= |lines|
    ensures |replies| < |lines| ==> |replies| > 0 && replies[|replies| - 1] in {Goodbye, NilWal}
    ensures forall j :: 0 <= j < |replies| - 1 ==> replies[j] != Goodbye && replies[j] != NilWal
    ensures Durable(old(fs.files), old(store.data)) && Benign(lines, faults) ==> Durable(fs.files, store.data)
  {
    ghost var ok := Durable(fs.files, store.data);
    var cur := wal;
    replies := [];
    var i := 0;
    while i < |lines|
      invariant 0 <= i <= |lines| && |replies| == i
      invariant Healthy(store, cur, fs)
      invariant cur == wal || cur == null || fresh(cur)
      invariant forall j :: 0 <= j < |replies| ==> replies[j] != Goodbye && replies[j] != NilWal
      invariant ok == (Durable(old(fs.files), old(store.data)) && Benign(lines[..i], faults[..i]))
      invariant ok ==> Durable(fs.files, store.data)
    {
      var reply;
      ghost var tame := !IsLoad(lines[i]) && faults[i].append != SyncFails;
      cur, reply := Turn(lines[i], store, cur, fs, faults[i]);
      BenignPrefix(lines, faults, i);
      ok := ok && tame;
      replies := replies + [reply];
      i := i + 1;
      if reply == Goodbye || reply == NilWal {
        break;
      }
    }
    BenignPrefixOfAll(lines, faults, i);
  }

  /** The whole program: recovery, then the REPL. A recovery error ends the
      program before any line is read. */
  method Run(fs: FileSystem, openFails: bool, lines: seq<string>, faults: seq<Faults>)
    returns (store: Store, replies: seq<Reply>, fatal: Option<RecoverError>)
    requires |faults| == |lines|
    modifies fs
    ensures fatal.None? <==> Recovered(old(fs.files)).Some? && !openFails
    ensures fatal.Some? ==> replies == []
    ensures fatal.None? && Benign(lines, faults) ==> Durable(fs.files, store.data)
  {
    var wal;
    store, wal, fatal := Recover(fs, openFails);
    if fatal.Some? {
      return store, [], fatal;
    }
    replies := Session(store, wal, fs, lines, faults);
  }
}
