/** The parts of Go's `strings` package that the command front ends use,
    restricted to ASCII: `TrimSpace`, `Fields`, `ToUpper` and `Join`.
    `TrimSpace` scans indices from both ends, as Go's code does; `Fields`
    is defined by recursion on the rest of the string. */
module Text {

  /** ASCII white space as Go's `unicode.IsSpace` classifies it. */
  predicate IsSpace(c: char)
  {
    c == ' ' || c == '\t' || c == '\n' || c == '\r' || c == '\U{B}' || c == '\U{C}'
  }

  predicate AllSpace(s: string)
  {
    forall i :: 0 <= i < |s| ==> IsSpace(s[i])
  }

  /** A field as `strings.Fields` produces it: non-empty, without white space. */
  predicate IsField(s: string)
  {
    s != "" && forall i :: 0 <= i < |s| ==> !IsSpace(s[i])
  }

  /** The first index at or after `i` that does not hold white space. */
  function SkipSpace(s: string, i: nat): (j: nat)
    requires i <= |s|
    ensures i <= j <= |s|
    ensures forall k :: i <= k < j ==> IsSpace(s[k])
    ensures j == |s| || !IsSpace(s[j])
    decreases |s| - i
  {
    if i < |s| && IsSpace(s[i]) then SkipSpace(s, i + 1) else i
  }

  /** The index just after the last character before `j` that is not white
      space, or 0. */
  function BackSpace(s: string, j: nat): (e: nat)
    requires j <= |s|
    ensures e <= j
    ensures forall k :: e <= k < j ==> IsSpace(s[k])
    ensures e == 0 || !IsSpace(s[e - 1])
  {
    if j > 0 && IsSpace(s[j - 1]) then BackSpace(s, j - 1) else j
  }

  /** `strings.TrimSpace`. */
  function TrimSpace(s: string): string
  {
    var i := SkipSpace(s, 0);
    if i == |s| then "" else s[i..BackSpace(s, |s|)]
  }

  /** The length of the word that starts `s`: how many characters it has
      before the first white space. */
  function WordLen(s: string): (n: nat)
    ensures n <= |s|
    ensures forall k :: 0 <= k < n ==> !IsSpace(s[k])
    ensures n == |s| || IsSpace(s[n])
  {
    if s != "" && !IsSpace(s[0]) then 1 + WordLen(s[1..]) else 0
  }

  /** `strings.Fields`: the maximal runs of non-white-space characters, in order. */
  function Fields(s: string): seq<string>
  {
    if s == "" then []
    else if IsSpace(s[0]) then Fields(s[1..])
    else
      var n := WordLen(s);
      [s[..n]] + Fields(s[n..])
  }

  /** Every field is non-empty and holds no white space. */
  lemma {:induction false} FieldsAreFields(s: string)
    ensures forall n :: 0 <= n < |Fields(s)| ==> IsField(Fields(s)[n])
  {
    if s != "" {
      if IsSpace(s[0]) {
        FieldsAreFields(s[1..]);
      } else {
        var w := WordLen(s);
        FieldsAreFields(s[w..]);
        var r := Fields(s);
        assert r == [s[..w]] + Fields(s[w..]);
        forall n | 0 <= n < |r| ensures IsField(r[n]) {
          if n > 0 {
            assert r[n] == Fields(s[w..])[n - 1];
          }
        }
      }
    }
  }

  /** A line has no fields exactly when it is all white space. */
  lemma {:induction false} FieldsEmpty(s: string)
    ensures Fields(s) == [] <==> AllSpace(s)
  {
    if s != "" && IsSpace(s[0]) {
      FieldsEmpty(s[1..]);
      assert AllSpace(s) <==> AllSpace(s[1..]) by {
        if AllSpace(s[1..]) {
          forall k | 0 <= k < |s| ensures IsSpace(s[k]) {
            if k > 0 { assert s[k] == s[1..][k - 1]; }
          }
        }
      }
    }
  }

  /** `strings.Join(parts, sep)`. */
  function Join(parts: seq<string>, sep: string): string
  {
    if |parts| == 0 then ""
    else if |parts| == 1 then parts[0]
    else parts[0] + sep + Join(parts[1..], sep)
  }

  /** ASCII `unicode.ToUpper`. */
  function UpperChar(c: char): char
  {
    if 'a' <= c <= 'z' then (c as int - 32) as char else c
  }

  /** `strings.ToUpper`, restricted to ASCII letters. */
  function ToUpper(s: string): (r: string)
    ensures |r| == |s|
    ensures forall i :: 0 <= i < |s| ==> r[i] == UpperChar(s[i])
  {
    if s == "" then "" else [UpperChar(s[0])] + ToUpper(s[1..])
  }

  /** A line is blank after trimming exactly when it is all white space, and
      exactly when it has no fields. */
  lemma BlankLine(s: string)
    ensures TrimSpace(s) == "" <==> AllSpace(s)
    ensures Fields(s) == [] <==> AllSpace(s)
  {
    FieldsEmpty(s);
    var i := SkipSpace(s, 0);
    if i < |s| {
      var e := BackSpace(s, |s|);
      assert e > i;
      assert s[i..e][0] == s[i];
    }
  }

  /** Trimming a line leaves a line that is not blank, when it was not. */
  lemma TrimmedNotBlank(s: string)
    requires !AllSpace(s)
    ensures !AllSpace(TrimSpace(s))
  {
    BlankLine(s);
    var i := SkipSpace(s, 0);
    var e := BackSpace(s, |s|);
    assert e > i;
    assert TrimSpace(s)[0] == s[i];
  }

  /** A word with no white space, followed by white space or by nothing,
      is as long as the word. */
  lemma {:induction false} WordLenOfWord(w: string, rest: string)
    requires forall k :: 0 <= k < |w| ==> !IsSpace(w[k])
    requires rest == "" || IsSpace(rest[0])
    ensures WordLen(w + rest) == |w|
    decreases |w|
  {
    if w == "" {
      assert w + rest == rest;
    } else {
      assert (w + rest)[0] == w[0];
      assert (w + rest)[1..] == w[1..] + rest;
      WordLenOfWord(w[1..], rest);
    }
  }

  /** A field followed by white space (or nothing) is the first field. */
  lemma FieldsOfField(w: string, rest: string)
    requires IsField(w)
    requires rest == "" || IsSpace(rest[0])
    ensures Fields(w + rest) == [w] + Fields(rest)
  {
    var s := w + rest;
    WordLenOfWord(w, rest);
    assert s[0] == w[0];
    assert s[..|w|] == w && s[|w|..] == rest;
  }

  /** Fields undoes a single-space join of fields. */
  lemma {:induction false} FieldsOfJoin(parts: seq<string>)
    requires forall i :: 0 <= i < |parts| ==> IsField(parts[i])
    ensures Fields(Join(parts, " ")) == parts
    decreases |parts|
  {
    if |parts| == 1 {
      FieldsOfField(parts[0], "");
      assert parts[0] + "" == parts[0];
    } else if |parts| > 1 {
      var rest := Join(parts[1..], " ");
      assert Join(parts, " ") == parts[0] + (" " + rest);
      FieldsOfField(parts[0], " " + rest);
      assert (" " + rest)[1..] == rest;
      FieldsOfJoin(parts[1..]);
      assert parts == [parts[0]] + parts[1..];
    }
  }

  /** Leading white space adds no field. */
  lemma {:induction false} FieldsDropSpace(s: string, n: nat)
    requires n <= |s| && forall k :: 0 <= k < n ==> IsSpace(s[k])
    ensures Fields(s) == Fields(s[n..])
    decreases n
  {
    if n > 0 {
      var t := s[1..];
      forall k | 0 <= k < n - 1 ensures IsSpace(t[k]) { assert t[k] == s[k + 1]; }
      FieldsDropSpace(t, n - 1);
      assert t[n - 1..] == s[n..];
    } else {
      assert s[0..] == s;
    }
  }

  /** A word is as long with white space after it. */
  lemma {:induction false} WordLenSuffix(t: string, u: string)
    requires u == "" || IsSpace(u[0])
    ensures WordLen(t + u) == WordLen(t)
    decreases |t|
  {
    if t == "" {
      assert t + u == u;
    } else {
      assert (t + u)[0] == t[0];
      if !IsSpace(t[0]) {
        assert (t + u)[1..] == t[1..] + u;
        WordLenSuffix(t[1..], u);
      }
    }
  }

  /** Trailing white space adds no field. */
  lemma {:induction false} FieldsDropTrailing(t: string, u: string)
    requires AllSpace(u)
    ensures Fields(t + u) == Fields(t)
    decreases |t|
  {
    var s := t + u;
    if t == "" {
      assert s == u;
      FieldsEmpty(u);
    } else if IsSpace(t[0]) {
      assert s[0] == t[0];
      assert s[1..] == t[1..] + u;
      FieldsDropTrailing(t[1..], u);
    } else {
      var n := WordLen(t);
      WordLenSuffix(t, u);
      assert s[0] == t[0];
      assert s[..n] == t[..n];
      assert s[n..] == t[n..] + u;
      FieldsDropTrailing(t[n..], u);
    }
  }

  /** `strings.Fields` of a trimmed line are the fields of the line. */
  lemma FieldsOfTrim(s: string)
    ensures Fields(TrimSpace(s)) == Fields(s)
  {
    var i := SkipSpace(s, 0);
    if i < |s| {
      var e := BackSpace(s, |s|);
      assert TrimSpace(s) == s[i..e];
      assert Fields(s) == Fields(s[i..]) by {
        FieldsDropSpace(s, i);
      }
      assert Fields(s[i..]) == Fields(s[i..e]) by {
        assert e > i;
        FieldsWithoutTrailing(s[i..], e - i);
        assert s[i..][..e - i] == s[i..e];
      }
    } else {
      FieldsEmpty(s);
    }
  }

  lemma FieldsWithoutTrailing(s: string, e: nat)
    requires e <= |s| && forall k :: e <= k < |s| ==> IsSpace(s[k])
    ensures Fields(s[..e]) == Fields(s)
  {
    var t, u := s[..e], s[e..];
    assert s == t + u;
    assert AllSpace(u) by {
      forall k | 0 <= k < |u| ensures IsSpace(u[k]) { assert u[k] == s[e + k]; }
    }
    FieldsDropTrailing(t, u);
  }

  /** Upper-casing is idempotent, so a command name compares the same after
      upper-casing however it was typed. */
  lemma ToUpperIdempotent(s: string)
    ensures ToUpper(ToUpper(s)) == ToUpper(s)
  {
  }
}
