/** The network front end (cmd/kvserver/main.go): each non-blank line a
    client sends is executed against the shared store and WAL and answered
    with one line of text. */
module KvServer {
  import opened Wrappers
  import opened Text
  import opened Disk
  import opened KvStore
  import opened KvWal
  import opened KvStorage
  import opened Recovery
  import KvMain

  /** The server's standing assumptions: a valid store and an open handle
      on the WAL file, which the server never closes. */
  ghost predicate Serving(store: Store, wal: Wal, fs: FileSystem)
    reads store, wal, fs
  {
    store.Valid() && wal.fs == fs && wal.path == WalFile && !wal.closed && wal.Valid()
  }

  /** The server's state as one command sees it: the map, the files, and
      whether the WAL's buffered writer has broken. */
  datatype Server = Server(data: map<string, string>, files: map<string, Blob>, broken: bool)

  /** The reply to one line, if it gets one, and the state after it. */
  datatype Outcome = Outcome(reply: Option<string>, next: Server)

  /** A mutation logged through the WAL: the store changes, and `done` is
      the reply, only when the append fully succeeds. */
  function Logged(s: Server, e: Entry, fault: AppendFault, done: string): (o: Outcome)
    requires WalFile in s.files
    ensures WalFile in o.next.files
  {
    var lands := Reaches(fault, s.broken, false);
    var files := if lands then Extended(s.files, WalFile, e) else s.files;
    var broken := BrokenAfter(fault, s.broken, false);
    if lands && fault == NoFault then Outcome(Some(done), Server(ApplyEntry(s.data, e), files, broken))
    else Outcome(Some("error: WAL failure"), Server(s.data, files, broken))
  }

  /** The PUT case of execute; `parts` are the line's fields, the command
      first. */
  function PutOutcome(parts: seq<string>, s: Server, fault: AppendFault): (o: Outcome)
    requires WalFile in s.files
    ensures WalFile in o.next.files
  {
    if |parts| < 3 then Outcome(Some("error: PUT <key> <value>"), s)
    else Logged(s, Entry(OpPut, parts[1], Join(parts[2..], " ")), fault, "OK")
  }

  /** The GET case of execute. */
  function GetOutcome(parts: seq<string>, s: Server): (o: Outcome)
  {
    if |parts| != 2 then Outcome(Some("error: GET <key>"), s)
    else Outcome(Some(if parts[1] in s.data then s.data[parts[1]] else "not found"), s)
  }

  /** The DELETE case of execute. */
  function DeleteOutcome(parts: seq<string>, s: Server, fault: AppendFault): (o: Outcome)
    requires WalFile in s.files
    ensures WalFile in o.next.files
  {
    if |parts| != 2 then Outcome(Some("error: DELETE <key>"), s)
    else Logged(s, Entry(OpDelete, parts[1], ""), fault, if parts[1] in s.data then "OK" else "not found")
  }

  /** The SAVE case of execute: a snapshot of the map, the WAL left as it is. */
  function SaveOutcome(s: Server, fault: SaveFault): (o: Outcome)
    requires WalFile in s.files
    ensures WalFile in o.next.files
  {
    FilesDistinct();
    Outcome(Some(if fault == SaveSucceeds then "OK" else "error: save failed"),
            s.(files := Saved(s.files, DataFile, s.data, fault)))
  }

  /** execute, as a function of the line and the state: the command word is
      matched in any letter case, every line with a field gets a reply, and
      the WAL file stays in place. */
  function Respond(line: string, s: Server, appendFault: AppendFault, saveFault: SaveFault): (o: Outcome)
    requires |Fields(line)| > 0 && WalFile in s.files
    ensures o.reply.Some? && WalFile in o.next.files
  {
    var parts := Fields(line);
    var cmd := ToUpper(parts[0]);
    if cmd == "PUT" then PutOutcome(parts, s, appendFault)
    else if cmd == "GET" then GetOutcome(parts, s)
    else if cmd == "DELETE" then DeleteOutcome(parts, s, appendFault)
    else if cmd == "SAVE" then SaveOutcome(s, saveFault)
    else Outcome(Some("error: unknown command"), s)
  }

  /** PUT writes the WAL before the map: the entry reaches the file exactly
      when encoding, writing and flushing succeed on a writer that is not
      broken (`Reaches`), the reply is OK exactly when the whole append
      succeeds, and only then does the map take the new value. */
  lemma PutCases(parts: seq<string>, s: Server, fault: AppendFault)
    requires WalFile in s.files
    ensures var o := PutOutcome(parts, s, fault);
            if |parts| < 3 then
              o.reply == Some("error: PUT <key> <value>") && o.next == s
            else
              var e := Entry(OpPut, parts[1], Join(parts[2..], " "));
              var lands := Reaches(fault, s.broken, false);
              o.next.files == (if lands then Extended(s.files, WalFile, e) else s.files) &&
              o.next.broken == BrokenAfter(fault, s.broken, false) &&
              (o.reply == Some("OK") <==> lands && fault == NoFault) &&
              (o.reply != Some("OK") ==> o.reply == Some("error: WAL failure")) &&
              o.next.data == (if o.reply == Some("OK") then s.data[e.key := e.value] else s.data)
  {
  }

  /** DELETE likewise: OK or "not found" by whether the key was there, but
      only once the append has fully succeeded. */
  lemma DeleteCases(parts: seq<string>, s: Server, fault: AppendFault)
    requires WalFile in s.files
    ensures var o := DeleteOutcome(parts, s, fault);
            if |parts| != 2 then
              o.reply == Some("error: DELETE <key>") && o.next == s
            else
              var key := parts[1];
              var lands := Reaches(fault, s.broken, false);
              o.next.files == (if lands then Extended(s.files, WalFile, Entry(OpDelete, key, "")) else s.files) &&
              o.next.broken == BrokenAfter(fault, s.broken, false) &&
              if lands && fault == NoFault then
                o.next.data == s.data - {key} && o.reply == Some(if key in s.data then "OK" else "not found")
              else
                o.next.data == s.data && o.reply == Some("error: WAL failure")
  {
  }

  /** SAVE changes neither the map nor the WAL file. */
  lemma SaveKeepsWal(s: Server, fault: SaveFault)
    requires WalFile in s.files
    ensures var o := SaveOutcome(s, fault);
            o.next.data == s.data && o.next.broken == s.broken &&
            o.next.files[WalFile] == s.files[WalFile]
  {
    FilesDistinct();
  }

  /** A GET after a successful PUT of the same key answers the new value. */
  lemma PutThenGet(key: string, value: seq<string>, s: Server, fault: AppendFault)
    requires WalFile in s.files && |value| > 0
    ensures var o := PutOutcome(["PUT", key] + value, s, fault);
            o.reply == Some("OK") ==> GetOutcome(["GET", key], o.next).reply == Some(Join(value, " "))
  {
    var parts := ["PUT", key] + value;
    assert parts[1] == key && parts[2..] == value;
  }

  /** A GET after a successful DELETE of the same key answers "not found". */
  lemma DeleteThenGet(key: string, s: Server, fault: AppendFault)
    requires WalFile in s.files
    ensures var o := DeleteOutcome(["DELETE", key], s, fault);
            o.reply.value in {"OK", "not found"} ==> GetOutcome(["GET", key], o.next).reply == Some("not found")
  {
  }

  /** Only a failed sync can make a reply leave the store out of step with
      what a restart would rebuild. */
  lemma RespondDurable(line: string, s: Server, appendFault: AppendFault, saveFault: SaveFault)
    requires |Fields(line)| > 0 && WalFile in s.files
    requires Durable(s.files, s.data) && appendFault != SyncFails
    ensures var o := Respond(line, s, appendFault, saveFault); Durable(o.next.files, o.next.data)
  {
    FilesDistinct();
    var parts := Fields(line);
    var cmd := ToUpper(parts[0]);
    if cmd == "PUT" && |parts| >= 3 {
      DurableAfterAppend(s.files, s.data, Entry(OpPut, parts[1], Join(parts[2..], " ")));
    } else if cmd == "DELETE" && |parts| == 2 {
      DurableAfterAppend(s.files, s.data, Entry(OpDelete, parts[1], ""));
    } else if cmd == "SAVE" {
      DurableAfterSnapshot(s.files, s.data, saveFault);
    }
  }

  /** One turn of handleClient, as a function: a blank line gets no reply
      and changes nothing, any other line is trimmed and executed. */
  function Handle(raw: string, s: Server, appendFault: AppendFault, saveFault: SaveFault): (o: Outcome)
    requires WalFile in s.files
    ensures WalFile in o.next.files
    ensures o.reply.None? <==> AllSpace(raw)
  {
    if AllSpace(raw) then Outcome(None, s)
    else
      TrimmedNotBlank(raw);
      BlankLine(TrimSpace(raw));
      Respond(TrimSpace(raw), s, appendFault, saveFault)
  }

  /** The replies a client gets for its lines, in order, and the state
      they leave. */
  datatype Transcript = Transcript(replies: seq<string>, last: Server)

  function Serve(lines: seq<string>, s: Server, appendFaults: seq<AppendFault>, saveFaults: seq<SaveFault>): (t: Transcript)
    requires |appendFaults| == |lines| && |saveFaults| == |lines| && WalFile in s.files
    ensures WalFile in t.last.files
    decreases |lines|
  {
    if |lines| == 0 then Transcript([], s)
    else
      var n := |lines| - 1;
      var t := Serve(lines[..n], s, appendFaults[..n], saveFaults[..n]);
      var o := Handle(lines[n], t.last, appendFaults[n], saveFaults[n]);
      Transcript(t.replies + (if o.reply.Some? then [o.reply.value] else []), o.next)
  }

  /** Serving one more line extends the transcript by that line's turn. */
  lemma ServeStep(lines: seq<string>, s: Server, appendFaults: seq<AppendFault>, saveFaults: seq<SaveFault>, i: nat)
    requires |appendFaults| == |lines| && |saveFaults| == |lines| && WalFile in s.files && i < |lines|
    ensures var t := Serve(lines[..i], s, appendFaults[..i], saveFaults[..i]);
            var o := Handle(lines[i], t.last, appendFaults[i], saveFaults[i]);
            Serve(lines[..i + 1], s, appendFaults[..i + 1], saveFaults[..i + 1]) ==
            Transcript(t.replies + (if o.reply.Some? then [o.reply.value] else []), o.next)
  {
    assert lines[..i + 1][..i] == lines[..i];
    assert appendFaults[..i + 1][..i] == appendFaults[..i] && saveFaults[..i + 1][..i] == saveFaults[..i];
  }

  /** A client gets exactly one reply per non-blank line. */
  lemma {:induction false} ServeCount(lines: seq<string>, s: Server, appendFaults: seq<AppendFault>, saveFaults: seq<SaveFault>)
    requires |appendFaults| == |lines| && |saveFaults| == |lines| && WalFile in s.files
    ensures |Serve(lines, s, appendFaults, saveFaults).replies| == CountNonBlank(lines)
    decreases |lines|
  {
    if |lines| > 0 {
      var n := |lines| - 1;
      ServeCount(lines[..n], s, appendFaults[..n], saveFaults[..n]);
    }
  }

  /** As long as no sync fails, a whole conversation keeps the store and
      what a restart would rebuild in step. */
  lemma {:induction false} ServeDurable(lines: seq<string>, s: Server, appendFaults: seq<AppendFault>, saveFaults: seq<SaveFault>)
    requires |appendFaults| == |lines| && |saveFaults| == |lines| && WalFile in s.files
    requires Durable(s.files, s.data) && SyncFailures(appendFaults) == 0
    ensures var t := Serve(lines, s, appendFaults, saveFaults); Durable(t.last.files, t.last.data)
    decreases |lines|
  {
    if |lines| > 0 {
      var n := |lines| - 1;
      ServeDurable(lines[..n], s, appendFaults[..n], saveFaults[..n]);
      var t := Serve(lines[..n], s, appendFaults[..n], saveFaults[..n]);
      if !AllSpace(lines[n]) {
        TrimmedNotBlank(lines[n]);
        BlankLine(TrimSpace(lines[n]));
        RespondDurable(TrimSpace(lines[n]), t.last, appendFaults[n], saveFaults[n]);
      }
    }
  }

  /** The PUT case of execute (the map is written only after the WAL). */
  method ExecutePut(parts: seq<string>, store: Store, wal: Wal, fs: FileSystem, fault: AppendFault)
    returns (resp: string)
    requires Serving(store, wal, fs)
    modifies store, wal, fs
    ensures Serving(store, wal, fs)
    ensures Outcome(Some(resp), Server(store.data, fs.files, wal.broken)) ==
            PutOutcome(parts, Server(old(store.data), old(fs.files), old(wal.broken)), fault)
  {
    if |parts| < 3 {
      return "error: PUT <key> <value>";
    }
    var key, value := parts[1], Join(parts[2..], " ");
    var err := wal.AppendPut(key, value, fault);
    if err.Some? {
      return "error: WAL failure";
    }
    store.Put(key, value);
    return "OK";
  }

  /** The GET case of execute. */
  method ExecuteGet(parts: seq<string>, store: Store, wal: Wal, fs: FileSystem) returns (resp: string)
    ensures Outcome(Some(resp), Server(store.data, fs.files, wal.broken)) ==
            GetOutcome(parts, Server(store.data, fs.files, wal.broken))
  {
    if |parts| != 2 {
      return "error: GET <key>";
    }
    var v, ok := store.Get(parts[1]);
    resp := if ok then v else "not found";
  }

  /** The DELETE case of execute. */
  method ExecuteDelete(parts: seq<string>, store: Store, wal: Wal, fs: FileSystem, fault: AppendFault)
    returns (resp: string)
    requires Serving(store, wal, fs)
    modifies store, wal, fs
    ensures Serving(store, wal, fs)
    ensures Outcome(Some(resp), Server(store.data, fs.files, wal.broken)) ==
            DeleteOutcome(parts, Server(old(store.data), old(fs.files), old(wal.broken)), fault)
  {
    if |parts| != 2 {
      return "error: DELETE <key>";
    }
    var err := wal.AppendDelete(parts[1], fault);
    if err.Some? {
      return "error: WAL failure";
    }
    var found := store.Delete(parts[1]);
    resp := if found then "OK" else "not found";
  }

  /** The SAVE case of execute. */
  method ExecuteSave(store: Store, wal: Wal, fs: FileSystem, fault: SaveFault) returns (resp: string)
    requires Serving(store, wal, fs)
    modifies fs
    ensures Serving(store, wal, fs)
    ensures Outcome(Some(resp), Server(store.data, fs.files, wal.broken)) ==
            SaveOutcome(Server(store.data, old(fs.files), wal.broken), fault)
  {
    var err := Save(store, fs, DataFile, fault);
    resp := if err.Some? then "error: save failed" else "OK";
    FilesDistinct();
  }

  /** execute: the reply to one line with at least one field, and the new
      state, are exactly those of `Respond` (so `RespondDurable` applies to
      it). */
  method Execute(line: string, store: Store, wal: Wal, fs: FileSystem, appendFault: AppendFault, saveFault: SaveFault)
    returns (resp: string)
    requires |Fields(line)| > 0
    requires Serving(store, wal, fs)
    modifies store, wal, fs
    ensures Serving(store, wal, fs)
    ensures Outcome(Some(resp), Server(store.data, fs.files, wal.broken)) ==
            Respond(line, Server(old(store.data), old(fs.files), old(wal.broken)), appendFault, saveFault)
  {
    var parts := Fields(line);
    var cmd := ToUpper(parts[0]);
    if cmd == "PUT" {
      resp := ExecutePut(parts, store, wal, fs, appendFault);
    } else if cmd == "GET" {
      resp := ExecuteGet(parts, store, wal, fs);
    } else if cmd == "DELETE" {
      resp := ExecuteDelete(parts, store, wal, fs, appendFault);
    } else if cmd == "SAVE" {
      resp := ExecuteSave(store, wal, fs, saveFault);
    } else {
      resp := "error: unknown command";
    }
  }

  /** Where the two front ends overlap, they accept the same numbers of
      arguments: the server counts the command itself among the fields. */
  lemma FrontEndsAgreeOnArity(line: string, s: Server, appendFault: AppendFault, saveFault: SaveFault)
    requires !AllSpace(line) && WalFile in s.files
    ensures |Fields(line)| > 0
    ensures var c := KvMain.ParseCommand(line).cmd;
            var o := Respond(line, s, appendFault, saveFault);
            c.name == "PUT" ==> (KvMain.ValidateCommand(c).None? <==> o.reply != Some("error: PUT <key> <value>"))
    ensures var c := KvMain.ParseCommand(line).cmd;
            var o := Respond(line, s, appendFault, saveFault);
            c.name == "DELETE" ==> (KvMain.ValidateCommand(c).None? <==> o.reply != Some("error: DELETE <key>"))
    ensures var c := KvMain.ParseCommand(line).cmd;
            var o := Respond(line, s, appendFault, saveFault);
            c.name == "GET" ==>
              if KvMain.ValidateCommand(c).None? then
                o.reply == Some(if c.args[0] in s.data then s.data[c.args[0]] else "not found")
              else o.reply == Some("error: GET <key>")
  {
    BlankLine(line);
  }

  /** One turn of handleClient: the line is trimmed, a blank line gets no
      reply, any other line is executed. */
  method ServeLine(raw: string, store: Store, wal: Wal, fs: FileSystem, appendFault: AppendFault, saveFault: SaveFault)
    returns (resp: Option<string>)
    requires Serving(store, wal, fs)
    modifies store, wal, fs
    ensures Serving(store, wal, fs)
    ensures resp.None? <==> AllSpace(raw)
    ensures resp.None? ==> fs.files == old(fs.files) && store.data == old(store.data) && store.keys == old(store.keys)
    ensures store.data == old(store.data) ==> store.keys == old(store.keys)
    ensures Outcome(resp, Server(store.data, fs.files, wal.broken)) ==
            Handle(raw, Server(old(store.data), old(fs.files), old(wal.broken)), appendFault, saveFault)
    ensures Durable(old(fs.files), old(store.data)) && appendFault != SyncFails ==> Durable(fs.files, store.data)
  {
    var line := TrimSpace(raw);
    BlankLine(raw);
    if line == "" {
      return None;
    }
    TrimmedNotBlank(raw);
    BlankLine(line);
    var r := Execute(line, store, wal, fs, appendFault, saveFault);
    if Durable(old(fs.files), old(store.data)) && appendFault != SyncFails {
      RespondDurable(line, Server(old(store.data), old(fs.files), old(wal.broken)), appendFault, saveFault);
    }
    if store.data == old(store.data) {
      IndexDetermined(store.data, old(store.keys), store.keys);
    }
    return Some(r);
  }

  /** The number of lines that are not blank. */
  function CountNonBlank(lines: seq<string>): nat
  {
    if |lines| == 0 then 0
    else CountNonBlank(lines[..|lines| - 1]) + (if AllSpace(lines[|lines| - 1]) then 0 else 1)
  }

  /** handleClient: the replies and the final state are those of `Serve`,
      so there is one reply per non-blank line, in order. As long as no sync
      fails, a restart would recover exactly the store's state. */
  method HandleClient(lines: seq<string>, store: Store, wal: Wal, fs: FileSystem, appendFaults: seq<AppendFault>, saveFaults: seq<SaveFault>)
    returns (responses: seq<string>)
    requires |appendFaults| == |lines| && |saveFaults| == |lines|
    requires Serving(store, wal, fs)
    modifies store, wal, fs
    ensures Serving(store, wal, fs)
    ensures Transcript(responses, Server(store.data, fs.files, wal.broken)) ==
            Serve(lines, Server(old(store.data), old(fs.files), old(wal.broken)), appendFaults, saveFaults)
    ensures |responses| == CountNonBlank(lines)
    ensures Durable(old(fs.files), old(store.data)) && SyncFailures(appendFaults) == 0 ==> Durable(fs.files, store.data)
  {
    ghost var start := Server(store.data, fs.files, wal.broken);
    responses := [];
    var i := 0;
    while i < |lines|
      invariant 0 <= i <= |lines|
      invariant Serving(store, wal, fs)
      invariant Transcript(responses, Server(store.data, fs.files, wal.broken)) ==
                Serve(lines[..i], start, appendFaults[..i], saveFaults[..i])
    {
      ServeStep(lines, start, appendFaults, saveFaults, i);
      var resp := ServeLine(lines[i], store, wal, fs, appendFaults[i], saveFaults[i]);
      if resp.Some? {
        responses := responses + [resp.value];
      }
      i := i + 1;
    }
    assert lines[..i] == lines && appendFaults[..i] == appendFaults && saveFaults[..i] == saveFaults;
    ServeCount(lines, start, appendFaults, saveFaults);
    if Durable(start.files, start.data) && SyncFailures(appendFaults) == 0 {
      ServeDurable(lines, start, appendFaults, saveFaults);
    }
  }

  /** The number of appends whose sync fails. */
  function SyncFailures(faults: seq<AppendFault>): nat
  {
    if |faults| == 0 then 0
    else SyncFailures(faults[..|faults| - 1]) + (if faults[|faults| - 1] == SyncFails then 1 else 0)
  }
}
