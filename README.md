# A verified model of the Local_Key_Value_Store storage engine

This project models the storage engine and command layer of a small
single-node key-value store written in Go, and proves facts about that
model in Dafny. It covers three parts:

- **The in-memory store.** A map from key to value, plus a secondary index:
  the keys kept sorted in Go's string order.
- **The write-ahead log (WAL).** Every mutation is appended to it, and it is
  replayed at start-up.
- **The snapshot file.** The whole map is written to a temporary file and
  renamed over the target. Loading it rebuilds the index.

On top of these sit the two front ends:

- an interactive REPL (`cmd/kvmain`), with parsing, argument validation and
  dispatch, including the checkpoint that truncates the WAL;
- a line-oriented TCP server (`cmd/kvserver`).

Both share one recovery sequence: load the snapshot, replay the WAL on top,
open the WAL for appending.

## Modules

| file | module | models |
|---|---|---|
| `lex.dfy` | `Lex` | Go's `<` on strings, `strings.HasPrefix`, `sort.Strings`, strictly sorted sequences |
| `text.dfy` | `Text` | `strings.TrimSpace`, `Fields`, `Join`, `ToUpper` (ASCII) |
| `wrappers.dfy` | `Wrappers` | `Option` |
| `disk.dfy` | `Disk` | the file system as a map from path to decoded contents; WAL entries |
| `store.dfy` | `KvStore` | `internal/kv/store.go` |
| `wal.dfy` | `KvWal` | `internal/kv/wal.go` |
| `storage.dfy` | `KvStorage` | `internal/kv/storage.go` |
| `recovery.dfy` | `Recovery` | the start-up sequence of both programs, and durability |
| `kvmain.dfy` | `KvMain` | `cmd/kvmain/main.go` |
| `kvserver.dfy` | `KvServer` | `cmd/kvserver/main.go` |

### How the state is modelled

- `KvStore.Store` is a class with the fields `data` and `keys`. Its
  invariant `Indexed` says that `keys` is strictly ascending and holds
  exactly the keys of `data`. `IndexDetermined` shows that the index is a
  function of the map. So statements about replay, snapshots and recovery are
  made on the map alone.
- Files are kept in their decoded form, in `Disk`:
  - a WAL file is `Log(lines)`, where each line is `Record(entry)` or
    `Garbage` (a line that does not decode);
  - a snapshot file is `Snapshot(map)`;
  - anything else is `Junk`.
- Each failure the environment can cause enters as an explicit parameter:
  - `AppendFault`, for the encode, write, flush and sync steps;
  - `SaveFault`, for the marshal, temporary-write and rename steps;
  - booleans for open, remove and reopen.
- The `broken` field of `KvWal.Wal` models `bufio.Writer`'s sticky error.
  After a failed write or flush, every later append fails without reaching
  the file.
- `Recovery.Recovered(files)` is the map a restart would rebuild, or `None` if
  recovery would stop with an error. `Durable(files, data)` says a restart
  would rebuild exactly `data`. Most front-end contracts carry the
  durability facts:
  - `Durable` is preserved by every command except LOAD, and except an append
    whose sync fails;
  - two lemmas show that each of those two exceptions really can break it.

### Points where the code's behaviour is easy to misread

- **The early exit in `PrefixScan` is correct** (internal/kv/store.go:75).
  Breaking on the first key above the prefix looks as if it could skip
  matches, but over a sorted index it cannot. `Lex.PastPrefix` proves this,
  and `KvStore.Store.PrefixScan` proves the scan returns exactly the matching
  entries.
- **A blank line inside the WAL is a decode error.** Replay does not skip it:
  every scanned line goes to `json.Unmarshal`, which rejects an empty one, so
  replay fails (internal/kv/wal.go:79-81). The model treats such a line as
  `Garbage`.
- **The server's SAVE does not truncate the WAL.** Recovery then replays the
  old log on top of a snapshot that already contains it. This is still
  correct, because replay is idempotent (`KvWal.ReplayIdempotent`,
  `Recovery.DurableAfterSnapshot`).
- **A failed save can leave the temporary file behind.** A failed write may
  leave a partial one; a failed rename leaves it complete. The target is never touched
  (`KvStorage.SaveAtomic`).
- **A failed sync still leaves the record in the log.** The append returns an
  error and the store is not updated, yet a restart applies the record
  (`Recovery.SyncFailureBreaksDurability`).

## Model

| member | source | states |
|---|---|---|
| `Lex.LessIrreflexive` | internal/kv/store.go:75 | no string is below itself in Go's order |
| `Lex.LessTransitive` | internal/kv/store.go:75 | Go's string order is transitive |
| `Lex.LessTotal` | internal/kv/store.go:75 | two different strings are ordered one way or the other |
| `Lex.LessAsymmetric` | internal/kv/store.go:75 | `a < b` excludes `b < a` |
| `Lex.PastPrefix` | internal/kv/store.go:71-78 | once a key is above the prefix without starting with it, no later key in sorted order starts with the prefix |
| `Lex.StrictlySortedDistinct` | internal/kv/store.go:12 | a strictly ascending index has no duplicates |
| `Lex.InsertStrict` | internal/kv/store.go:31-32 | inserting a new key into a strictly sorted index keeps it strictly sorted and adds exactly that key |
| `Lex.SortDistinct` | internal/kv/storage.go:45-49 | sorting duplicate-free keys gives a strictly sorted sequence of the same keys |
| `Lex.StrictlySortedUnique` | internal/kv/store.go:12 | two strictly sorted sequences with the same elements are equal |
| `Lex.SortAppendIsInsert` | internal/kv/store.go:30-33 | appending a new key and re-sorting equals inserting it at its sorted position |
| `Text.SkipSpace` | cmd/kvmain/main.go:24 | the result is the first index at or after `i` not holding white space |
| `Text.BackSpace` | cmd/kvmain/main.go:24 | the result is just past the last non-white-space character before `j` |
| `Text.WordLen` | cmd/kvmain/main.go:29 | the result is the length of the run of non-white-space characters that starts the string |
| `Text.FieldsAreFields` | cmd/kvmain/main.go:29 | every field is non-empty and free of white space |
| `Text.FieldsEmpty` | cmd/kvmain/main.go:29 | a line has no fields exactly when it is all white space |
| `Text.FieldsOfField` | cmd/kvmain/main.go:29 | a field followed by white space or by nothing is the first field, and the rest follow |
| `Text.FieldsDropSpace` | cmd/kvmain/main.go:24-29 | leading white space adds no field |
| `Text.FieldsDropTrailing` | cmd/kvmain/main.go:24-29 | trailing white space adds no field |
| `Text.ToUpper` | cmd/kvmain/main.go:30 | same length, each character upper-cased |
| `Text.BlankLine` | cmd/kvmain/main.go:24-27 | a line trims to "" exactly when it is all white space, and exactly when it has no fields |
| `Text.TrimmedNotBlank` | cmd/kvserver/main.go:64-69 | a line that is not blank stays not blank after trimming |
| `Text.FieldsOfTrim` | cmd/kvmain/main.go:24-29 | the fields of the trimmed line are the fields of the line |
| `Text.FieldsOfJoin` | cmd/kvmain/main.go:157 | splitting a single-space join of fields gives back the fields |
| `Text.ToUpperIdempotent` | cmd/kvmain/main.go:30 | upper-casing twice is upper-casing once |
| `KvStore.IndexDetermined` | internal/kv/store.go:12 | the sorted index is a function of the map |
| `KvStore.PutKeepsIndex` | internal/kv/store.go:27-33 | Put keeps the index invariant; a new key lands at its sorted position |
| `KvStore.PutTwice` | internal/kv/store.go:27-33 | a second Put of the same binding changes neither map nor index |
| `KvStore.RemoveFirstAt` | internal/kv/store.go:56-59 | removing the first occurrence found at `i` is the splice `keys[..i] + keys[i+1..]` |
| `KvStore.RemoveFirstSorted` | internal/kv/store.go:56-61 | the splice keeps the index strictly sorted and drops exactly the key |
| `KvStore.DeleteKeepsIndex` | internal/kv/store.go:50-62 | Delete keeps the invariant, removes exactly one element of a present key's index, and leaves an absent key's index alone |
| `KvStore.EmptyPrefixMatchesAll` | internal/kv/store.go:72 | every key starts with the empty prefix |
| `KvStore.Store.constructor` | internal/kv/store.go:15-20 | a new store has an empty map and an empty index, and the invariant holds |
| `KvStore.Store.Put` | internal/kv/store.go:23-34 | `data[key] := value` and nothing else; the index is unchanged for an existing key, else the re-sorted old index plus the key; the invariant is kept |
| `KvStore.Store.Get` | internal/kv/store.go:37-43 | `(data[key], true)` when present, `("", false)` otherwise; nothing changes |
| `KvStore.Store.Delete` | internal/kv/store.go:46-63 | returns whether the key was present; removes it from the map and its one occurrence from the index; an absent key changes nothing |
| `KvStore.Store.PrefixScan` | internal/kv/store.go:65-80 | the result is exactly the entries whose key starts with the prefix, despite the early exit; nothing changes |
| `KvStore.Store.ScanComplete` | internal/kv/store.go:71-79 | matches collected before a point past which nothing matches are all the matches |
| `KvWal.Wal.constructor` | internal/kv/wal.go:31-34 | a new handle is open and healthy on its path |
| `KvWal.AppendErrorOf` | internal/kv/wal.go:49-61 | the error of a failing append: the first step that fails, a broken writer failing the write and a closed file the flush |
| `KvWal.Wal.Append` | internal/kv/wal.go:49-61 | the record is appended as one line exactly when encode, write and flush succeed on a healthy open handle; success only when sync succeeds as well; which step's error is returned (`AppendErrorOf`); write and flush failures break the writer for good |
| `KvWal.Wal.AppendPut` | internal/kv/wal.go:38-41 | appends exactly one `PUT` record with the key and value after the existing records |
| `KvWal.Wal.AppendDelete` | internal/kv/wal.go:44-47 | appends exactly one `DELETE` record with the key and an empty value |
| `KvWal.Wal.Close` | internal/kv/wal.go:64-66 | the handle is closed and later appends fail |
| `KvWal.OpenWal` | internal/kv/wal.go:26-35 | an existing log is kept as it is, a missing one created empty; failure opens nothing and changes nothing |
| `KvWal.ReplayOk` | internal/kv/wal.go:77-81 | replay succeeds exactly when every line decodes |
| `KvWal.ReplayConcat` | internal/kv/wal.go:76-90 | replaying `L1 + L2` is replaying `L2` on the result of `L1`, unless `L1` already failed |
| `KvWal.ReplayStopsAtGarbage` | internal/kv/wal.go:79-81 | a malformed line fails the replay with the earlier records applied and the later lines unread |
| `KvWal.ReplaySnoc` | internal/kv/wal.go:49-61 | one more record at the end of a clean log applies on top of its result |
| `KvWal.OverlayCompose` | internal/kv/wal.go:83-88 | laying two sets of effects over a map in turn is laying their union, the later one winning |
| `KvWal.ApplyIsOverlay` | internal/kv/wal.go:83-88 | a PUT writes its key, a DELETE removes it, another op does nothing |
| `KvWal.ReplayIsOverlay` | internal/kv/wal.go:77-89 | a clean replay lays the log's last-writer-wins effect over the starting map |
| `KvWal.ReplayIdempotent` | internal/kv/wal.go:77-89 | replaying a clean log again on the state it produced changes nothing |
| `KvWal.ReplayDeterministic` | internal/kv/wal.go:76-90 | replaying one log into two empty stores gives equal maps and equal indexes |
| `KvWal.ReplayWal` | internal/kv/wal.go:69-91 | a missing file fails and changes nothing; otherwise the store ends as the fold of the lines over its old map, fails exactly when a line is malformed, and keeps its invariant |
| `KvStorage.SaveAtomic` | internal/kv/storage.go:11-24 | after a save the target holds its old contents or the complete new snapshot, and no file but the target and its temporary file changes |
| `KvStorage.SaveLoadRoundTrip` | internal/kv/storage.go:14-49 | loading what a successful save wrote gives back the same map and the same index |
| `KvStorage.Save` | internal/kv/storage.go:10-25 | writes the temporary file then renames it, per the fault; errors exactly on a fault; the store is only read |
| `KvStorage.Load` | internal/kv/storage.go:28-52 | a read or decode failure returns its error and leaves map and index alone; success makes the map the decoded one and rebuilds a valid index |
| `Recovery.RecoveredLocal` | cmd/kvmain/main.go:100-119 | recovery reads only the snapshot and the WAL |
| `Recovery.RecoveredFromNothing` | cmd/kvmain/main.go:100-119 | without files a restart recovers the empty map |
| `Recovery.DurableAfterAppend` | cmd/kvmain/main.go:159-164 | logging a record and applying it keeps memory and restart in step |
| `Recovery.DurableAfterSnapshot` | cmd/kvserver/main.go:115-119 | writing a snapshot of the state, succeeding or failing, keeps what a restart recovers |
| `Recovery.DurableAfterCheckpoint` | cmd/kvmain/main.go:191-202 | the checkpoint keeps the recovered state; when remove and reopen succeed it leaves the snapshot of the state and an empty WAL |
| `Recovery.SyncFailureBreaksDurability` | internal/kv/wal.go:57-60 | a record can land in the log without the store being updated, so a restart disagrees |
| `Recovery.LoadBreaksDurability` | cmd/kvmain/main.go:205-210 | LOAD can set the store to a state a restart would not rebuild |
| `Recovery.Recover` | cmd/kvmain/main.go:100-127 | the state is the WAL replayed over the snapshot, or over the empty map without one; it fails exactly when a file does not decode or the WAL cannot be opened |
| `KvMain.ParseCommand` | cmd/kvmain/main.go:23-36 | "empty command" exactly for a blank line; otherwise the upper-cased first field and the remaining fields, none empty |
| `KvMain.ParseJoined` | cmd/kvmain/main.go:23-36 | a command typed as fields joined by spaces parses back to those fields |
| `KvMain.NameCaseInsensitive` | cmd/kvmain/main.go:30 | a parsed command name is already upper case |
| `KvMain.ValidateCommand` | cmd/kvmain/main.go:41-68 | PUT/SET need at least 2 arguments, GET and DELETE/DEL/RM exactly 1, SAVE/LOAD/HELP/EXIT/QUIT/Q none; anything else is an unknown command |
| `KvMain.Dispatched` | cmd/kvmain/main.go:152-220 | per command, between the states before and after: WAL before store; store unchanged on WAL failure, with the append's error reported; DELETE logs absent keys too; SAVE truncates only after a successful snapshot, and a failed one keeps the same handle; LOAD replaces the store from the snapshot alone; the writer breaks only by a PUT's or DELETE's append, and only a successful SAVE closes it |
| `KvMain.Dispatch` | cmd/kvmain/main.go:152-220 | the switch does what `Dispatched` says; the standing assumptions survive; only SAVE may hand back another handle, fresh and healthy, or none; durability kept except by LOAD and failed syncs |
| `KvMain.ReplStep` | cmd/kvmain/main.go:141-150 | blank or invalid lines are rejected with their message and change nothing; a valid line does what `Dispatched` says of its command; durability is kept except by LOAD and failed syncs |
| `KvMain.Turn` | cmd/kvmain/main.go:141-150 | the part of `ReplStep`'s contract the loop relies on (ReplStep states the full turn): the standing assumptions survive, and durability survives unless the line is LOAD or the sync fails |
| `KvMain.Session` | cmd/kvmain/main.go:134-221 | at most one reply per line; a session that stops before the end of input ends with a Goodbye or NilWal reply, and no earlier reply is either; without LOAD and failed syncs a restart recovers the final state |
| `KvMain.Run` | cmd/kvmain/main.go:95-221 | recovery errors are fatal before any input; otherwise the session's durability holds at the end |
| `KvServer.Logged` | cmd/kvserver/main.go:88-92 | a logged mutation: the entry reaches the WAL exactly when encoding, writing and flushing succeed on a writer that is not broken (`Reaches`); the reply is the success reply and the map takes the entry only when the whole append succeeds, else "error: WAL failure" with the map unchanged |
| `KvServer.PutOutcome` | cmd/kvserver/main.go:81-92 | PUT: fewer than three fields get the usage message; otherwise the value is the remaining fields joined by one space, logged before the map is written |
| `KvServer.GetOutcome` | cmd/kvserver/main.go:94-101 | GET: exactly two fields, else the usage message; the value or "not found"; nothing changes |
| `KvServer.DeleteOutcome` | cmd/kvserver/main.go:103-113 | DELETE: exactly two fields, else the usage message; logged first, then "OK" or "not found" by whether the key was present |
| `KvServer.SaveOutcome` | cmd/kvserver/main.go:115-119 | SAVE: a snapshot of the map, "OK" or "error: save failed"; the WAL and its writer untouched |
| `KvServer.Respond` | cmd/kvserver/main.go:75-124 | every line with a field gets a reply and keeps the WAL file; the command word is matched in any letter case; anything else is "error: unknown command" |
| `KvServer.PutCases` | cmd/kvserver/main.go:81-92 | PUT's usage error changes nothing; otherwise the WAL is extended exactly when the append reaches it, the writer breaks per the fault, the reply is OK exactly when the append fully succeeds, and only then is the map updated |
| `KvServer.DeleteCases` | cmd/kvserver/main.go:103-113 | DELETE's usage error changes nothing; a WAL failure leaves the map alone; a fully successful append removes the key and answers by its earlier presence |
| `KvServer.SaveKeepsWal` | cmd/kvserver/main.go:115-119 | SAVE changes neither the map, the writer, nor the WAL file |
| `KvServer.PutThenGet` | cmd/kvserver/main.go:81-101 | a GET after a successful PUT of the same key answers the new value |
| `KvServer.DeleteThenGet` | cmd/kvserver/main.go:94-113 | a GET after a successful DELETE answers "not found" |
| `KvServer.RespondDurable` | cmd/kvserver/main.go:75-124 | any line keeps the store and what a restart recovers in step, unless its append's sync fails |
| `KvServer.ExecutePut` | cmd/kvserver/main.go:81-92 | the PUT case leaves exactly the reply and state of `PutOutcome` and keeps the standing assumptions |
| `KvServer.ExecuteGet` | cmd/kvserver/main.go:94-101 | the GET case answers as `GetOutcome` and changes nothing |
| `KvServer.ExecuteDelete` | cmd/kvserver/main.go:103-113 | the DELETE case leaves exactly the reply and state of `DeleteOutcome` |
| `KvServer.ExecuteSave` | cmd/kvserver/main.go:115-119 | the SAVE case leaves exactly the reply and files of `SaveOutcome` and changes only the files |
| `KvServer.Execute` | cmd/kvserver/main.go:75-124 | the reply, the map, the files and the writer's state after the call are exactly those of `Respond` on the state before it; the standing assumptions are kept |
| `KvServer.FrontEndsAgreeOnArity` | cmd/kvserver/main.go:82-105 | for PUT and DELETE the REPL accepts a line exactly when the server's `Respond` does not answer it with its usage message; for GET, a line the REPL accepts gets the value or "not found" from the server, and one it rejects gets the server's usage message |
| `KvServer.Handle` | cmd/kvserver/main.go:63-69 | a line gets no reply exactly when it is all white space; otherwise its trimmed form is answered by `Respond` |
| `KvServer.ServeLine` | cmd/kvserver/main.go:63-71 | the reply and new state are exactly those of `Handle`; a blank line changes nothing; an unchanged map keeps its index; durability is kept unless the sync fails |
| `KvServer.Serve` | cmd/kvserver/main.go:63-72 | the replies to a client's lines in order, each turn starting from the state the previous one left |
| `KvServer.ServeStep` | cmd/kvserver/main.go:63-72 | serving one more line appends that line's reply, if any, and moves to its state |
| `KvServer.ServeCount` | cmd/kvserver/main.go:63-71 | a client gets exactly one reply per non-blank line |
| `KvServer.ServeDurable` | cmd/kvserver/main.go:63-72 | without failed syncs a whole conversation keeps the store and a restart in step |
| `KvServer.HandleClient` | cmd/kvserver/main.go:56-73 | the replies and the final state are exactly those of `Serve`; one reply per non-blank line; without failed syncs a restart recovers the final state |
| `KvStore.Matching` | internal/kv/store.go:72-73 | the entries whose key starts with the prefix: what a prefix scan should return |
| `KvStore.RemoveFirst` | internal/kv/store.go:56-61 | the index without the first occurrence of the key, as the loop with its `break` leaves it |
| `KvWal.Extended` | internal/kv/wal.go:54-57 | the WAL file after one more record line at its end |
| `KvWal.Reaches` | internal/kv/wal.go:49-58 | an append reaches the file when encode, write and flush succeed on a healthy open handle |
| `KvWal.BrokenAfter` | internal/kv/wal.go:49-58 | the buffered writer breaks on a write or flush failure and stays broken; an encode failure leaves it as it was |
| `KvWal.ApplyEntry` | internal/kv/wal.go:83-88 | a PUT record writes its key, a DELETE record removes it, any other op is ignored |
| `KvWal.Replay` | internal/kv/wal.go:76-89 | the lines applied in order from the given map; the first line that does not decode stops the replay with what came before applied |
| `KvStorage.Saved` | internal/kv/storage.go:11-24 | the files after a save, per fault: nothing on a marshal failure, a partial temporary file on a write failure, the complete temporary file on a rename failure, the snapshot at the target on success |
| `KvStorage.Tmp` | internal/kv/storage.go:11 | the temporary path is the target path with ".tmp" appended |
| `KvStorage.DecodeSnapshot` | internal/kv/storage.go:34-37 | `json.Unmarshal` into a map: a snapshot file decodes to its map, anything else fails |
| `KvStorage.LoadResult` | internal/kv/storage.go:29-37 | what Load reads: a read error for a missing file, a decode error for contents that are not a snapshot, else the decoded map |
| `Recovery.Recovered` | cmd/kvmain/main.go:100-119 | the snapshot, or the empty map without one, with the WAL replayed on top if it exists; nothing when either does not decode |
| `Recovery.Checkpointed` | cmd/kvmain/main.go:197-200 | the files after the REPL's SAVE: the snapshot written, the WAL removed unless that fails, and reopened empty unless that fails |
| `Disk.FileSystem.Remove` | cmd/kvmain/main.go:199 | `os.Remove`: the file is gone, or on failure nothing changes |
| `Text.IsSpace` | cmd/kvmain/main.go:24-29 | the white space of `strings.TrimSpace` and `strings.Fields`: space, tab, newline, carriage return, vertical tab and form feed (ASCII only) |
| `Text.UpperChar` | cmd/kvmain/main.go:30 | the per-character step of `strings.ToUpper`: `a`-`z` map to `A`-`Z`, every other character is kept (ASCII only) |
| `Text.TrimSpace` | cmd/kvmain/main.go:24 | `strings.TrimSpace`: the string without its leading and trailing white space |
| `Text.Fields` | cmd/kvmain/main.go:29 | `strings.Fields`: the maximal runs of non-white-space characters, in order |
| `Text.Join` | cmd/kvmain/main.go:157 | `strings.Join`: the parts with the separator between each two |
| `Lex.Less` | internal/kv/store.go:75 | Go's `<` on strings: the first differing character decides, and a proper prefix is smaller |
| `Lex.HasPrefix` | internal/kv/store.go:72 | `strings.HasPrefix` |
| `Lex.SortStrings` | internal/kv/store.go:32 | `sort.Strings`, as insertion into a sorted sequence |

## Left out

- Locking (`sync.RWMutex`) and the goroutine per connection are left out. Every operation is modelled as atomic and sequential, and several clients sharing one store and one WAL are not modelled.
- JSON encoding and decoding are taken to round-trip. A file is modelled by its decoded view, so bytes, indentation and a partly written final line appear only as `Garbage` or `Junk`.
- A snapshot holding JSON `null` is not modelled. It decodes to a nil Go map, on which the next Put panics.
- Only the contents of files a replay actually reads are modelled. `bufio.Scanner`'s token limit (a WAL line over 64 KiB fails replay) is left out, and a line that long is covered only as `Garbage`.
- `bufio.Writer` buffering is collapsed into the appended line. A partial write that leaves part of a record in the file is not modelled.
- `KvStorage.LoadResult` and `KvWal.ReplayWal` model only a missing file as a read or open failure. A file that exists but cannot be read (permissions, an I/O error) is not modelled, since files are kept as their decoded contents.
- `KvStorage.Saved`: a failed temporary write always leaves `Junk` at the temporary path. An `os.WriteFile` that fails before creating the file, and so leaves no temporary file, is not modelled separately.
- Keys, values and command lines are sequences of Unicode scalar values, and Go's byte order on strings is modelled as code-point order. The two agree on valid UTF-8. A Go string holding invalid UTF-8 cannot be represented, so the order is not modelled for such strings.
- `os.Stat` errors other than "does not exist" are not modelled. For the snapshot the REPL treats them as fatal (cmd/kvmain/main.go:107-110); for the WAL, whose check has no else branch (cmd/kvmain/main.go:113), the REPL treats any error as absence, and so does the server for both files.
- `KvWal.Wal.Close` does not model the error `os.File.Close` can return, which both programs ignore.
- `KvMain.Dispatch`: after SAVE, the ignored error of reopening the WAL is modelled, as a nil WAL and the crash (`NilWal`) of the next PUT or DELETE, or of a SAVE whose snapshot succeeds. The crash's message is not modelled.
- The TCP listener, accepting connections, reading standard input, the `> ` prompt, `printHelp`'s text and every `fmt` line are not modelled. The REPL's replies are a datatype; the server's replies are its exact strings.
- White space and case mapping are restricted to ASCII. Unicode white space and non-ASCII case mapping in `strings.Fields`, `TrimSpace` and `ToUpper` are not modelled.
- The server's `panic` on a recovery error and the REPL's `fatal:` message are both modelled as the error result of `Recovery.Recover`.
