/** The end of a session: what is deleted, and what is left of its diagnostics. Reads come up short,
    deletions and writes may fail part way. */
module Finalizer {
  import opened Posix
  import opened Wrappers
  import opened Ordering

  const INT_MAX: nat := 0x7FFF_FFFF
  const BUFFER_SIZE: nat := 16 * 1024

  type Name = seq<int>   // UTF-16 code units

  datatype Node = File(bytes: seq<byte>) | NotFile

  datatype Place = Missing | NotDirectory | Directory(entries: map<Name, Node>)

  /** `export`: what the sink answers, if there is one; `Throws` if it throws. */
  datatype Export = NoSink | Answers(to: Option<Name>) | Throws

  datatype Request = Request(
    preserveOutput: bool, sink: Export, retainDiagnostics: bool, names: set<Name>, maxBytes: int)

  datatype Result = Result(outputPreserved: bool, exportedTo: Option<Name>, cleaned: bool, retained: seq<Name>)

  datatype Outcome = Finalized(result: Result) | IllegalArgument | ExportFailed | IoFailed

  // ---- reading a bounded prefix --------------------------------------------------------------

  /** A file opened for reading. A read gives at least one byte until the end, and may give fewer than
      asked for; `Fails` is an IOException. */
  class InputStream {
    const content: seq<byte>
    var at: nat

    constructor (content: seq<byte>)
      ensures this.content == content && at == 0
    {
      this.content, at := content, 0;
    }

    method Read(buffer: array<byte>, length: nat) returns (read: int, fails: bool)
      requires at <= |content| && 0 < length <= buffer.Length
      modifies this`at, buffer
      ensures at <= |content|
      ensures read <= 0 ==> at == old(at) && (fails || at == |content|)
      ensures read > 0 ==> read <= length && at == old(at) + read && buffer[..read] == content[old(at)..at] && !fails
    {
      fails := *;
      var left := |content| - at;
      if fails || left == 0 {
        read := -1;
        return;
      }
      var n: int := *;
      var most := if left < length then left else length;
      read := if 1 <= n <= most then n else most;
      forall i | 0 <= i < read {
        buffer[i] := content[at + i];
      }
      at := at + read;
    }
  }

  function Least(a: int, b: int): int {
    if a < b then a else b
  }

  /** `after` is the beginning of `before` that a limit leaves: all of it if that is within the limit and an
      Int, and otherwise as much as both allow. */
  predicate CutTo(before: seq<byte>, after: seq<byte>, limit: nat) {
    && after <= before && |after| <= limit && |after| <= 2147483647
    && (after == before || |after| == limit || |after| == 2147483647)
  }

  /** What becomes of a diagnostic that stays. */
  predicate Shortened(before: seq<byte>, after: seq<byte>, limit: int) {
    if |before| <= limit then after == before else limit >= 0 && CutTo(before, after, limit)
  }

  /** For every pattern of short reads, the first min(length, limit, Int.MAX_VALUE) bytes. */
  method ReadPrefix(content: seq<byte>, maxBytes: int) returns (output: seq<byte>, fails: bool)
    ensures !fails ==> CutTo(content, output, if maxBytes < 0 then 0 else maxBytes)
    ensures maxBytes <= 0 ==> !fails && output == []
  {
    output, fails := [], false;
    if maxBytes <= 0 {
      return;
    }
    var bounded := Least(maxBytes, INT_MAX);
    var buffer := new byte[BUFFER_SIZE](_ => 0);
    var remaining := bounded;
    var input := new InputStream(content);
    while remaining > 0
      invariant fresh(input) && fresh(buffer) && buffer.Length == BUFFER_SIZE && input.content == content
      invariant 0 <= remaining <= bounded && input.at == bounded - remaining <= |content|
      invariant output == content[..input.at]
      decreases remaining
    {
      var from := input.at;
      var read;
      read, fails := input.Read(buffer, Least(BUFFER_SIZE, remaining));
      if fails {
        return;
      }
      if read <= 0 {
        break;
      }
      output := output + buffer[..read];
      assert content[..from] + content[from..input.at] == content[..input.at];
      remaining := remaining - read;
    }
  }

  // ---- what may be left ----------------------------------------------------------------------

  /** What is left of a tree somebody tried to delete. */
  predicate Remains(before: Place, after: Place) {
    match before
    case Missing => after == Missing
    case NotDirectory => after == Missing || after == NotDirectory
    case Directory(entries) =>
      after == Missing || (after.Directory? && forall n :: n in after.entries ==> n in entries && after.entries[n] == entries[n])
  }

  /** A diagnostic that has to be read and rewritten, which alone can fail with an exception. */
  predicate TooLong(r: Request, n: Name, entries: map<Name, Node>) {
    n in entries && entries[n].File? && n in r.names && |entries[n].bytes| > r.maxBytes
  }

  /** What becomes of one entry. `works`: every deletion of this run succeeds. */
  predicate Settled(r: Request, before: map<Name, Node>, after: map<Name, Node>, n: Name, works: bool)
    requires n in before
  {
    if before[n].File? && n in r.names then n in after && after[n].File? && Shortened(before[n].bytes, after[n].bytes, r.maxBytes)
    else n in after ==> !works && after[n] == before[n]
  }

  /** Nothing is invented: every survivor is an earlier entry, a file being cut at most. */
  predicate OnlyCut(before: map<Name, Node>, after: map<Name, Node>) {
    forall n :: n in after ==>
      n in before && (after[n] == before[n] || (after[n].File? && before[n].File? && after[n].bytes <= before[n].bytes))
  }

  /** Each entry of a directory once, in whatever order. */
  ghost predicate Lists(names: seq<Name>, entries: map<Name, Node>) {
    Distinct(names) && forall n :: n in names <==> n in entries
  }

  function Itself(n: Name): seq<int> {
    n
  }

  /** The sorted list of the files of a directory. */
  ghost predicate SortedFiles(names: seq<Name>, entries: map<Name, Node>) {
    && (forall i, j :: 0 <= i < j < |names| ==> Precedes(names[i], names[j])) && Distinct(names)
    && forall n :: n in names <==> n in entries && entries[n].File?
  }

  lemma SortedExactly(names: seq<Name>)
    ensures Ascending(names, Itself) <==> forall i, j :: 0 <= i < j < |names| ==> Precedes(names[i], names[j])
  {
    forall i, j | 0 <= i < j < |names| ensures AtMost(Itself(names[i]), Itself(names[j])) <==> Precedes(names[i], names[j]) {
      AtMostExactly(names[i], names[j]);
    }
    hide AtMost, Precedes;
  }

  lemma CutsAddUp(a: map<Name, Node>, b: map<Name, Node>, c: map<Name, Node>)
    requires OnlyCut(a, b) && OnlyCut(b, c)
    ensures OnlyCut(a, c)
  {
  }

  /** Dealing with the next entry leaves the settled ones settled. */
  lemma SettledStay(r: Request, before: map<Name, Node>, mid: map<Name, Node>, after: map<Name, Node>,
                    names: seq<Name>, i: nat, works: bool)
    requires i < |names| && (forall n :: n in names ==> n in before) && after - {names[i]} == mid - {names[i]}
    requires Distinct(names)
    requires forall k :: 0 <= k < i ==> Settled(r, before, mid, names[k], works)
    ensures forall k :: 0 <= k < i ==> Settled(r, before, after, names[k], works)
    ensures forall k :: i < k < |names| && names[k] in mid ==> names[k] in after && after[names[k]] == mid[names[k]]
  {
    forall k | 0 <= k < |names| && k != i
      ensures (names[k] in mid <==> names[k] in after) && (names[k] in mid ==> after[names[k]] == mid[names[k]])
    {
      assert names[k] != names[i];
      assert names[k] in mid - {names[i]} <==> names[k] in after - {names[i]};
      assert names[k] in mid ==> (mid - {names[i]})[names[k]] == (after - {names[i]})[names[k]];
    }
  }

  lemma NotYet(names: seq<Name>, i: nat, files: seq<Name>)
    requires i < |names| && Distinct(names)
    requires forall n :: n in files ==> n in names[..i]
    ensures names[i] !in files
  {
  }

  /** What retaining the diagnostics of a session comes to when no deletion and no listing fails: exactly
      the files with approved names stay, each whole if it was within the limit and else cut to it, and
      they are what is returned, sorted. */
  ghost predicate Retained(r: Request, before: Place, after: Place, retained: seq<Name>) {
    if !before.Directory? then after == before && retained == []
    else
      && after.Directory? && SortedFiles(retained, after.entries)
      && (forall n :: n in after.entries <==> n in before.entries && before.entries[n].File? && n in r.names)
      && (forall n :: n in after.entries ==> after.entries[n].File? && Shortened(before.entries[n].bytes, after.entries[n].bytes, r.maxBytes))
  }

  lemma SettledIsRetained(r: Request, before: map<Name, Node>, after: map<Name, Node>, retained: seq<Name>)
    requires r.maxBytes >= 0 && SortedFiles(retained, after) && OnlyCut(before, after)
    requires forall n :: n in before ==> Settled(r, before, after, n, true)
    ensures Retained(r, Directory(before), Directory(after), retained)
  {
    hide SortedFiles, Shortened;
  }

  /** Retaining again, with the same limits, changes nothing and reports the same files. */
  lemma RetainingIsIdempotent(r: Request, a: Place, b: Place, c: Place, first: seq<Name>, second: seq<Name>)
    requires Retained(r, a, b, first) && Retained(r, b, c, second)
    ensures c == b && second == first
  {
    if a.Directory? {
      assert forall n :: n in b.entries ==> c.entries[n].bytes == b.entries[n].bytes;
      assert c.entries == b.entries;
      SortedExactly(first);
      SortedExactly(second);
      OneOrder(second, first, Itself);
    }
  }

  // ---- the session's directories -------------------------------------------------------------

  class Session {
    var input: Place
    var tmp: Place
    var output: Place
    var diagnostics: Place

    /** File.deleteRecursively. */
    method DeleteRecursively(place: Place, works: bool) returns (after: Place)
      ensures Remains(place, after) && (works ==> after == Missing)
    {
      var gone: bool, keep: set<Name> := *, *;
      after := if works || gone then Missing
               else if place.Directory? then Directory(map n | n in place.entries && n in keep :: place.entries[n])
               else place;
    }

    /** File.listFiles().orEmpty(), on a directory. `works`: it does not answer null. */
    method ListFiles(works: bool) returns (names: seq<Name>)
      requires diagnostics.Directory?
      ensures Lists(names, diagnostics.entries) || (!works && names == [])
    {
      var answers: bool := *;
      names := [];
      if !answers && !works {
        return;
      }
      var rest := diagnostics.entries.Keys;
      while rest != {}
        invariant rest <= diagnostics.entries.Keys
        invariant forall n :: n in names <==> n in diagnostics.entries && n !in rest
        invariant Distinct(names)
        decreases |rest|
      {
        var n :| n in rest;
        names, rest := names + [n], rest - {n};
      }
    }

    /** One diagnostic: deleted, cut, or left. */
    method Settle(r: Request, n: Name, works: bool) returns (fails: bool)
      requires diagnostics.Directory? && n in diagnostics.entries && r.maxBytes >= 0
      modifies this`diagnostics
      ensures diagnostics.Directory? && OnlyCut(old(diagnostics.entries), diagnostics.entries)
      ensures diagnostics.entries - {n} == old(diagnostics.entries) - {n}
      ensures !fails ==> Settled(r, old(diagnostics.entries), diagnostics.entries, n, works)
      ensures fails ==> TooLong(r, n, old(diagnostics.entries))
    {
      fails := false;
      var entries := diagnostics.entries;
      var file := entries[n];
      if !file.File? || n !in r.names {
        var gone: bool := *;
        if gone || works {
          diagnostics := Directory(entries - {n});
        }
      } else if |file.bytes| > r.maxBytes {
        var prefix;
        prefix, fails := ReadPrefix(file.bytes, r.maxBytes);
        if !fails {
          var written: int;
          written, fails := *, *;
          // File.writeBytes truncates first; a failure leaves some of the new content.
          if !fails || written < 0 || written > |prefix| {
            written := |prefix|;
          }
          diagnostics := Directory(entries[n := File(prefix[..written])]);
        }
      }
    }

    /** retainBoundedDiagnostics. */
    method RetainBoundedDiagnostics(r: Request, works: bool) returns (retained: seq<Name>, fails: bool)
      requires r.maxBytes >= 0
      modifies this`diagnostics
      ensures diagnostics.Directory? <==> old(diagnostics).Directory?
      ensures !diagnostics.Directory? ==> diagnostics == old(diagnostics) && retained == [] && !fails
      ensures diagnostics.Directory? ==> OnlyCut(old(diagnostics).entries, diagnostics.entries)
      ensures diagnostics.Directory? && !fails ==>
                || (forall n :: n in old(diagnostics).entries ==> Settled(r, old(diagnostics).entries, diagnostics.entries, n, works))
                || (!works && diagnostics == old(diagnostics))
      ensures fails ==> exists n :: n in old(diagnostics.entries) && TooLong(r, n, old(diagnostics.entries))
      ensures diagnostics.Directory? && works && !fails ==> Retained(r, old(diagnostics), diagnostics, retained)
      ensures diagnostics.Directory? && !fails ==> SortedFiles(retained, diagnostics.entries) || (!works && retained == [])
    {
      retained, fails := [], false;
      if !diagnostics.Directory? {
        return;
      }
      ghost var before := diagnostics.entries;
      var names := ListFiles(works);
      var i := 0;
      while i < |names|
        invariant 0 <= i <= |names| && diagnostics.Directory? && OnlyCut(before, diagnostics.entries)
        invariant i == 0 ==> diagnostics == old(diagnostics)
        invariant forall k :: i <= k < |names| ==> names[k] in diagnostics.entries && diagnostics.entries[names[k]] == before[names[k]]
        invariant forall k :: 0 <= k < i ==> Settled(r, before, diagnostics.entries, names[k], works)
      {
        ghost var mid := diagnostics.entries;
        fails := Settle(r, names[i], works);
        CutsAddUp(before, mid, diagnostics.entries);
        if fails {
          return;
        }
        SettledStay(r, before, mid, diagnostics.entries, names, i, works);
        i := i + 1;
      }
      retained := FilesLeft(works);
      if works {
        SettledIsRetained(r, before, diagnostics.entries, retained);
      }
    }

    /** The second listing, filtered and sorted. */
    method FilesLeft(works: bool) returns (retained: seq<Name>)
      requires diagnostics.Directory?
      ensures SortedFiles(retained, diagnostics.entries) || (!works && retained == [])
    {
      var names := ListFiles(works);
      var files := [];
      var i := 0;
      while i < |names|
        invariant |files| <= i <= |names|
        invariant forall n :: n in files <==> n in names[..i] && diagnostics.entries[n].File?
        invariant Distinct(files)
      {
        assert names[..i + 1] == names[..i] + [names[i]];
        if diagnostics.entries[names[i]].File? {
          NotYet(names, i, files);
          files := files + [names[i]];
        }
        i := i + 1;
      }
      assert names[..i] == names;
      SortedStays(files, Itself);
      retained := Sorted(files, Itself);
      SortedExactly(retained);
    }

    /** finalize. `works`: no deletion and no listing fails in this run. */
    method Finalize(r: Request, works: bool) returns (outcome: Outcome)
      modifies this
      ensures outcome.IllegalArgument? <==> r.maxBytes < 0
      ensures outcome.ExportFailed? <==> r.maxBytes >= 0 && r.sink.Throws?
      ensures outcome.IoFailed? ==>
                && r.retainDiagnostics && old(diagnostics).Directory?
                && (exists n :: n in old(diagnostics).entries && TooLong(r, n, old(diagnostics).entries))
                && (works ==> input.Missing? && tmp.Missing? && (r.preserveOutput || output.Missing?))
      ensures outcome.IllegalArgument? || outcome.ExportFailed? ==>
                input == old(input) && tmp == old(tmp) && output == old(output) && diagnostics == old(diagnostics)
      ensures Remains(old(input), input) && Remains(old(tmp), tmp) && Remains(old(output), output)
      ensures r.preserveOutput ==> output == old(output)
      ensures outcome.Finalized? ==>
                var v := outcome.result;
                && (v.cleaned <==> input.Missing? && tmp.Missing? && (r.preserveOutput || output.Missing?))
                && (v.outputPreserved <==> r.preserveOutput && old(output).Directory?)
                && v.exportedTo == (if r.sink.Answers? then r.sink.to else None)
                && (works ==> v.cleaned)
                && (!r.retainDiagnostics ==> v.retained == [] && Remains(old(diagnostics), diagnostics) && (works ==> diagnostics.Missing?))
                && (r.retainDiagnostics && works ==> Retained(r, old(diagnostics), diagnostics, v.retained))
                && (r.retainDiagnostics && old(diagnostics).Directory? ==>
                      && diagnostics.Directory?
                      && (diagnostics == old(diagnostics)
                          || forall n :: n in old(diagnostics).entries ==> Settled(r, old(diagnostics).entries, diagnostics.entries, n, works)))
      ensures diagnostics.Directory? ==> old(diagnostics).Directory? && OnlyCut(old(diagnostics).entries, diagnostics.entries)
    {
      if r.maxBytes < 0 {
        return IllegalArgument;
      }
      if r.sink.Throws? {
        return ExportFailed;
      }
      var exportedTo := if r.sink.Answers? then r.sink.to else None;
      input := DeleteRecursively(input, works);
      tmp := DeleteRecursively(tmp, works);
      if !r.preserveOutput {
        output := DeleteRecursively(output, works);
      }
      var retained := [];
      if r.retainDiagnostics {
        var fails;
        retained, fails := RetainBoundedDiagnostics(r, works);
        if fails {
          return IoFailed;
        }
      } else {
        diagnostics := DeleteRecursively(diagnostics, works);
      }
      var cleaned := input.Missing? && tmp.Missing? && (r.preserveOutput || output.Missing?);
      outcome := Finalized(Result(r.preserveOutput && output.Directory?, exportedTo, cleaned, retained));
    }
  }
}
