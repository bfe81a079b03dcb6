/** The files the store reads and writes, seen through their codecs.

    A WAL file is a sequence of lines, each either a record that decodes as
    JSON into a `walEntry` or a line that does not decode. A snapshot file
    is either a JSON object of string values or something that does not
    decode. Encoding and decoding are taken to round-trip, so a file is
    modelled by its decoded view. */
module Disk {

  /** Go's `walEntry`: the operation name is free text; only "PUT" and
      "DELETE" mean anything to replay. */
  datatype Entry = Entry(op: string, key: string, value: string)

  const OpPut := "PUT"
  const OpDelete := "DELETE"

  /** One newline-terminated line of a WAL file. */
  datatype Line = Record(entry: Entry) | Garbage

  /** The contents of one file: a snapshot document, a WAL, or bytes that
      decode as neither (a partly written temporary file, say). */
  datatype Blob = Snapshot(data: map<string, string>) | Log(lines: seq<Line>) | Junk

  /** The lines a file yields when it is read as a WAL. A file that is not a
      WAL fails to decode on its first line. */
  function LinesOf(b: Blob): seq<Line>
  {
    if b.Log? then b.lines else [Garbage]
  }

  /** The file system: a map from path to contents. */
  class FileSystem {
    var files: map<string, Blob>

    constructor (files: map<string, Blob>)
      ensures this.files == files
    {
      this.files := files;
    }

    /** `os.Remove`; `fails` stands for the operating system refusing. */
    method Remove(path: string, fails: bool)
      modifies this
      ensures files == if fails then old(files) else old(files) - {path}
    {
      if !fails {
        files := files - {path};
      }
    }
  }
}
