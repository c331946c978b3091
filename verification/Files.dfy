/** Comparing, copying and installing a generated file. */
module Files {
  import opened Prelude

  type Path = Bytes
  type Inode = nat

  /** Several names may be links to one file. */
  datatype FS = FS(names: map<Path, Inode>, data: map<Inode, Bytes>, next: Inode)

  predicate Valid(fs: FS) {
    && (forall p :: p in fs.names ==> fs.names[p] in fs.data)
    && (forall i :: i in fs.data ==> i < fs.next)
  }

  function Content(fs: FS, p: Path): Option<Bytes> {
    if p in fs.names && fs.names[p] in fs.data then Some(fs.data[fs.names[p]]) else None
  }

  /** `os.SameFile`, also for a name that is still to be created. */
  predicate SameFile(fs: FS, p: Path, q: Path) {
    p == q || (p in fs.names && q in fs.names && fs.names[p] == fs.names[q])
  }

  /** `os.Create` or `os.WriteFile`: an existing file is truncated, whatever other names it has. */
  function Write(fs: FS, p: Path, text: Bytes): (r: FS)
    ensures Valid(fs) ==> Valid(r)
  {
    if p in fs.names then fs.(data := fs.data[fs.names[p] := text])
    else FS(fs.names[p := fs.next], fs.data[fs.next := text], fs.next + 1)
  }

  /** How `CopyFile` fails: it cannot open the source or the destination, or after so many bytes; after all of them in
      `Sync`. */
  datatype CopyFault = Intact | NotOpened | After(bytes: nat)

  function Min(a: nat, b: nat): nat { if a <= b then a else b }

  function Cut(text: Bytes, fault: CopyFault): Bytes {
    if fault.After? then text[..Min(fault.bytes, |text|)] else text
  }

  /** `CopyFile`: the destination is emptied before the source is read. */
  function Copy(fs: FS, src: Path, dst: Path, fault: CopyFault): FS
    requires Valid(fs) && src in fs.names
  {
    if fault.NotOpened? then fs
    else
      var emptied := Write(fs, dst, []);
      Write(emptied, dst, Cut(Content(emptied, src).value, fault))
  }

  /** Write `tmp`, compare it with `dst`, and if it differs or `dst` is missing, copy it and reload. */
  function Install(fs: FS, text: Bytes, tmp: Path, dst: Path): (FS, bool)
    requires Valid(fs)
  {
    var written := Write(fs, tmp, text);
    if Content(written, dst) == Some(text) then (written, false) else (Copy(written, tmp, dst, Intact), true)
  }

  lemma WriteContent(fs: FS, p: Path, text: Bytes, q: Path)
    requires Valid(fs)
    ensures Content(Write(fs, p, text), q) == if SameFile(fs, p, q) then Some(text) else Content(fs, q)
    ensures SameFile(Write(fs, p, text), p, q) <==> SameFile(fs, p, q)
  {
  }

  /** What every name reads after a copy, also a failed one. Copying onto another name of the same file loses its
      content. */
  lemma CopyContent(fs: FS, src: Path, dst: Path, fault: CopyFault, q: Path)
    requires Valid(fs) && src in fs.names
    ensures var r := Copy(fs, src, dst, fault);
      && Valid(r)
      && Content(r, q) ==
         if fault.NotOpened? || !SameFile(fs, dst, q) then Content(fs, q)
         else if SameFile(fs, src, dst) then Some([])
         else Some(Cut(Content(fs, src).value, fault))
  {
    if !fault.NotOpened? {
      var emptied := Write(fs, dst, []);
      WriteContent(fs, dst, [], src);
      WriteContent(fs, dst, [], q);
      WriteContent(emptied, dst, Cut(Content(emptied, src).value, fault), q);
    }
  }

  /** After an install the target is the text; icinga is reloaded exactly when the target was missing or
      different before and is not the temporary file itself; files with other names are as before. */
  lemma InstallExactly(fs: FS, text: Bytes, tmp: Path, dst: Path, q: Path)
    requires Valid(fs)
    ensures var (r, reload) := Install(fs, text, tmp, dst);
      && Valid(r)
      && Content(r, dst) == Some(text)
      && (reload <==> !SameFile(fs, tmp, dst) && Content(fs, dst) != Some(text))
      && (!SameFile(fs, tmp, q) && !SameFile(fs, dst, q) ==> Content(r, q) == Content(fs, q))
  {
    var written := Write(fs, tmp, text);
    WriteContent(fs, tmp, text, dst);
    WriteContent(fs, tmp, text, tmp);
    WriteContent(fs, tmp, text, q);
    if Content(written, dst) != Some(text) {
      CopyContent(written, tmp, dst, Intact, dst);
      CopyContent(written, tmp, dst, Intact, q);
      if q in written.names && q !in fs.names { assert q == tmp; }
    }
  }

  /** A second install of the same text changes nothing and reloads nothing. */
  lemma InstallTwice(fs: FS, text: Bytes, tmp: Path, dst: Path)
    requires Valid(fs)
    ensures var r := Install(fs, text, tmp, dst).0; Install(r, text, tmp, dst) == (r, false)
  {
    var r := Install(fs, text, tmp, dst).0;
    var written := Write(fs, tmp, text);
    InstallExactly(fs, text, tmp, dst, tmp);
    WriteContent(fs, tmp, text, tmp);
    WriteContent(fs, tmp, text, dst);
    if Content(written, dst) != Some(text) { CopyContent(written, tmp, dst, Intact, tmp); }
    assert tmp in r.names && Content(r, tmp) == Some(text);
    assert Write(r, tmp, text) == r;
  }

  // --- FileCmp -----------------------------------------------------------------------------------------------

  const CHUNK: nat := 4096

  datatype ReadError = Nil | EOF | UnexpectedEOF | IOError

  /** What comparing two files finds; Unreadable is an error. */
  datatype Verdict = Same | Different | Unreadable

  /** What can be read of a file before the read error, if there is one. */
  function Readable(content: Bytes, fault: Option<nat>): Bytes {
    if fault.Some? then content[..Min(fault.value, |content|)] else content
  }

  /** The chunk loop: what is read is compared before an error is looked at. */
  function ReadBoth(content1: Bytes, fault1: Option<nat>, content2: Bytes, fault2: Option<nat>): Verdict {
    if Readable(content1, fault1) != Readable(content2, fault2) then Different
    else if fault1.None? && fault2.None? then Same
    else Unreadable
  }

  /** How `FileCmp` fails on existing files: `Stat` or `Open` of one of them, or reading one of them from some offset
      on. */
  datatype Faults = Faults(stat: bool, open: bool, read1: Option<nat>, read2: Option<nat>)

  const NO_FAULTS := Faults(false, false, None, None)

  /** `FileCmp`. */
  function Compared(fs: FS, file1: Path, file2: Path, faults: Faults): Verdict
    requires Valid(fs)
  {
    if file1 !in fs.names || file2 !in fs.names || faults.stat then Unreadable
    else if fs.names[file1] == fs.names[file2] then Same
    else CompareContents(Content(fs, file1).value, Content(fs, file2).value, faults)
  }

  /** The same of two different files. */
  function CompareContents(content1: Bytes, content2: Bytes, faults: Faults): Verdict {
    if faults.stat then Unreadable
    else if |content1| != |content2| then Different
    else if faults.open then Unreadable
    else ReadBoth(content1, faults.read1, content2, faults.read2)
  }

  /** Different contents are never taken for the same, and without read errors the comparison is exact. Equal contents
      are taken for different, without an error, exactly when the two files fail at different places. */
  lemma ComparisonExactly(content1: Bytes, fault1: Option<nat>, content2: Bytes, fault2: Option<nat>)
    ensures ReadBoth(content1, fault1, content2, fault2) == Same <==>
            content1 == content2 && fault1.None? && fault2.None?
    ensures content1 == content2 ==>
      && (ReadBoth(content1, fault1, content2, fault2) == Different <==>
            |Readable(content1, fault1)| != |Readable(content2, fault2)|)
      && (ReadBoth(content1, fault1, content2, fault2) == Unreadable <==>
            |Readable(content1, fault1)| == |Readable(content2, fault2)| && (fault1.Some? || fault2.Some?))
  {
    if content1 == content2 && |Readable(content1, fault1)| == |Readable(content2, fault2)| {
      assert Readable(content1, fault1) == content1[..|Readable(content1, fault1)|];
      assert Readable(content2, fault2) == content2[..|Readable(content2, fault2)|];
    }
  }

  /** The same of `FileCmp`, on two different files: the one unreported failure is in reading. */
  lemma CompareExactly(content1: Bytes, content2: Bytes, faults: Faults)
    ensures CompareContents(content1, content2, faults) == Same <==> content1 == content2 && faults == NO_FAULTS
    ensures content1 == content2 ==>
      (CompareContents(content1, content2, faults) == Different <==>
        !faults.stat && !faults.open && |Readable(content1, faults.read1)| != |Readable(content2, faults.read2)|)
  {
    ComparisonExactly(content1, faults.read1, content2, faults.read2);
  }

  /** An open file. With `fault`, reading fails at that offset instead of going on. */
  class Handle {
    const content: Bytes
    const fault: Option<nat>
    var pos: nat

    ghost predicate Valid()
      reads this
    {
      pos <= End()
    }

    function End(): nat {
      |Readable(content, fault)|
    }

    constructor (content: Bytes, fault: Option<nat>)
      ensures this.content == content && this.fault == fault && pos == 0 && Valid()
    {
      this.content, this.fault, pos := content, fault, 0;
    }

    /** `io.ReadFull`. */
    method ReadFull(buf: array<Byte>) returns (n: nat, err: ReadError)
      requires Valid()
      modifies this`pos, buf
      ensures Valid() && pos == old(pos) + n
      ensures n == Min(buf.Length, End() - old(pos)) && buf[..n] == Readable(content, fault)[old(pos)..old(pos) + n]
      ensures err == if n == buf.Length then Nil else if fault.Some? then IOError
                     else if n == 0 then EOF else UnexpectedEOF
    {
      n := Min(buf.Length, End() - pos);
      for i := 0 to n
        invariant forall j :: 0 <= j < i ==> buf[j] == content[pos + j]
        modifies buf
      {
        buf[i] := content[pos + i];
      }
      pos := pos + n;
      err := if n == buf.Length then Nil else if fault.Some? then IOError else if n == 0 then EOF else UnexpectedEOF;
    }
  }

  /** The chunk loop of `FileCmp`, for all lengths, equal or not, and all read errors. */
  method CompareChunks(f1: Handle, f2: Handle) returns (same: bool, failed: bool)
    requires f1 != f2 && f1.pos == 0 && f2.pos == 0
    modifies f1`pos, f2`pos
    ensures same ==> !failed && f1.content == f2.content
    ensures f1.fault.None? && f2.fault.None? ==> !failed && (same <==> f1.content == f2.content)
    ensures f1.content == f2.content ==> (!same && !failed <==> f1.End() != f2.End())
    ensures f1.content == f2.content ==> (failed <==> f1.End() == f2.End() && (f1.fault.Some? || f2.fault.Some?))
    ensures var verdict := ReadBoth(f1.content, f1.fault, f2.content, f2.fault);
      (same <==> verdict == Same) && (failed <==> verdict == Unreadable)
  {
    var b1, b2 := new Byte[CHUNK], new Byte[CHUNK];
    ghost var r1, r2 := Readable(f1.content, f1.fault), Readable(f2.content, f2.fault);
    ComparisonExactly(f1.content, f1.fault, f2.content, f2.fault);
    while true
      invariant f1.Valid() && f2.Valid() && f1.pos == f2.pos
      invariant r1[..f1.pos] == r2[..f1.pos]
      decreases |f1.content| - f1.pos
    {
      ghost var at := f1.pos;
      var n1, err1 := f1.ReadFull(b1);
      var n2, err2 := f2.ReadFull(b2);
      if b1[..n1] != b2[..n2] {
        DifferentChunks(r1, r2, at, n1, n2, CHUNK);
        return false, false;
      }
      assert n1 == |b1[..n1]| == |b2[..n2]| == n2;
      PrefixGrows(r1, r2, at, n1);
      WholePrefix(r1, f1.pos);
      WholePrefix(r2, f2.pos);
      if (err1 == EOF && err2 == EOF) || (err1 == UnexpectedEOF && err2 == UnexpectedEOF) {
        return true, false;
      }
      if err1 != Nil || err2 != Nil {
        return false, true;
      }
    }
  }

  /** A read error that goes unreported: two equal files of two bytes, of which one cannot be read to the end. */
  method EqualFilesTakenForDifferent() returns (same: bool, failed: bool)
    ensures ReadBoth("ab", Some(1), "ab", None) == Different && !same && !failed
  {
    var f1 := new Handle("ab", Some(1));
    var f2 := new Handle("ab", None);
    same, failed := CompareChunks(f1, f2);
  }

  lemma WholePrefix(a: Bytes, at: nat)
    ensures at == |a| ==> a[..at] == a
  {
  }

  lemma PrefixGrows(a: Bytes, b: Bytes, at: nat, n: nat)
    requires at + n <= |a| && at + n <= |b| && a[..at] == b[..at] && a[at..at + n] == b[at..at + n]
    ensures a[..at + n] == b[..at + n]
  {
    assert a[..at + n] == a[..at] + a[at..at + n];
    assert b[..at + n] == b[..at] + b[at..at + n];
  }

  lemma DifferentChunks(a: Bytes, b: Bytes, at: nat, n1: nat, n2: nat, chunk: nat)
    requires at + n1 <= |a| && at + n2 <= |b| && a[at..at + n1] != b[at..at + n2]
    ensures n1 == Min(chunk, |a| - at) && n2 == Min(chunk, |b| - at) ==> a != b
  {
  }

  function TmpFile(filename: Path): (tmp: Path)
    ensures tmp != filename
  {
    filename + ".tmp"
  }

  // --- Runs of the programs ------------------------------------------------------------------------------------

  /** One run: the rendered text, and what fails in it. `unseen`: the look for an installed file, which only
      `writeIcingaConfig` takes before it compares, does not find it. */
  datatype Attempt = Attempt(
    text: Bytes,
    createFails: bool,
    unseen: bool,
    faults: Faults,
    copyFault: CopyFault)

  /** The content of the installed file, and that which icinga has loaded. */
  datatype Target = Target(content: Option<Bytes>, loaded: Option<Bytes>)

  datatype Outcome = Outcome(target: Target, reloaded: bool, failed: bool)

  function Verdicts(t: Target, a: Attempt): Verdict {
    if t.content.None? then Unreadable else CompareContents(a.text, t.content.value, a.faults)
  }

  function Installing(t: Target, a: Attempt): Outcome {
    match a.copyFault
    case Intact => Outcome(Target(Some(a.text), Some(a.text)), true, false)
    case NotOpened => Outcome(t, false, true)
    case After(_) => Outcome(t.(content := Some(Cut(a.text, a.copyFault))), false, true)
  }

  /** A failed comparison is an error for `writeIcingaConfig` (`strict`), which compares only if it sees a file, and
      counts as a difference for `generateIcingaZonesConf`. */
  predicate Installs(strict: bool, t: Target, a: Attempt) {
    && !a.createFails
    && if strict then t.content.None? || a.unseen || Verdicts(t, a) == Different else Verdicts(t, a) != Same
  }

  function Run(strict: bool, t: Target, a: Attempt): Outcome {
    if Installs(strict, t, a) then Installing(t, a) else Outcome(t, false, a.createFails || Verdicts(t, a) != Same)
  }

  function Runs(strict: bool, t: Target, attempts: seq<Attempt>): Target {
    if attempts == [] then t
    else Run(strict, Runs(strict, t, attempts[..|attempts| - 1]), attempts[|attempts| - 1]).target
  }

  /** Icinga has loaded what is installed. */
  predicate Current(t: Target) { t.loaded == t.content }

  predicate Touches(strict: bool, t: Target, a: Attempt) {
    Installs(strict, t, a) && !a.copyFault.NotOpened?
  }

  predicate TouchedAt(strict: bool, t: Target, attempts: seq<Attempt>, i: nat)
    requires i < |attempts|
  {
    Touches(strict, Runs(strict, t, attempts[..i]), attempts[i])
  }

  predicate LoadedAt(strict: bool, t: Target, attempts: seq<Attempt>, i: nat)
    requires i < |attempts|
  {
    TouchedAt(strict, t, attempts, i) && attempts[i].copyFault.Intact?
  }

  /** `w` is the last attempt that wrote to the target. */
  predicate LastWriter(strict: bool, t: Target, attempts: seq<Attempt>, w: Option<nat>) {
    && (w.Some? ==> w.value < |attempts| && TouchedAt(strict, t, attempts, w.value))
    && forall i :: (if w.Some? then w.value + 1 else 0) <= i < |attempts| ==> !TouchedAt(strict, t, attempts, i)
  }

  /** `l` is the last attempt whose copy did not fail. */
  predicate LastLoader(strict: bool, t: Target, attempts: seq<Attempt>, l: Option<nat>) {
    && (l.Some? ==> l.value < |attempts| && LoadedAt(strict, t, attempts, l.value))
    && forall i :: (if l.Some? then l.value + 1 else 0) <= i < |attempts| ==> !LoadedAt(strict, t, attempts, i)
  }

  /** What an attempt that wrote has left in the target. */
  function Left(a: Attempt): Bytes {
    Cut(a.text, a.copyFault)
  }

  function Written(t: Target, attempts: seq<Attempt>, w: Option<nat>): Option<Bytes>
    requires w.Some? ==> w.value < |attempts|
  {
    if w.Some? then Some(Left(attempts[w.value])) else t.content
  }

  function Loaded(t: Target, attempts: seq<Attempt>, l: Option<nat>): Option<Bytes>
    requires l.Some? ==> l.value < |attempts|
  {
    if l.Some? then Some(attempts[l.value].text) else t.loaded
  }

  lemma AtPrefix(strict: bool, t: Target, attempts: seq<Attempt>, n: nat)
    requires n <= |attempts|
    ensures forall i :: 0 <= i < n ==> attempts[..n][i] == attempts[i]
    ensures forall i :: 0 <= i < n ==> (TouchedAt(strict, t, attempts[..n], i) <==> TouchedAt(strict, t, attempts, i))
    ensures forall i :: 0 <= i < n ==> (LoadedAt(strict, t, attempts[..n], i) <==> LoadedAt(strict, t, attempts, i))
  {
    forall i | 0 <= i < n ensures attempts[..n][i] == attempts[i] && attempts[..n][..i] == attempts[..i] {
    }
  }

  /** There are such attempts, or none. */
  lemma {:induction false} LastOnes(strict: bool, t: Target, attempts: seq<Attempt>)
    returns (w: Option<nat>, l: Option<nat>)
    ensures LastWriter(strict, t, attempts, w) && LastLoader(strict, t, attempts, l)
  {
    w, l := None, None;
    if attempts != [] {
      var n := |attempts| - 1;
      w, l := LastOnes(strict, t, attempts[..n]);
      AtPrefix(strict, t, attempts, n);
      if TouchedAt(strict, t, attempts, n) { w := Some(n); }
      if LoadedAt(strict, t, attempts, n) { l := Some(n); }
    }
  }

  /** After any number of runs, the target holds what the last one that wrote to it left there, and icinga has loaded the
      text of the last one whose copy did not fail. */
  lemma {:induction false} RunsExactly(strict: bool, t: Target, attempts: seq<Attempt>, w: Option<nat>, l: Option<nat>)
    requires LastWriter(strict, t, attempts, w) && LastLoader(strict, t, attempts, l)
    ensures Runs(strict, t, attempts) == Target(Written(t, attempts, w), Loaded(t, attempts, l))
  {
    if attempts != [] {
      var n := |attempts| - 1;
      var before := attempts[..n];
      var v, k := LastOnes(strict, t, before);
      LastBefore(strict, t, attempts, w, l);
      if !TouchedAt(strict, t, attempts, n) { v := w; }
      if !LoadedAt(strict, t, attempts, n) { k := l; }
      RunsExactly(strict, t, before, v, k);
      RunOnce(strict, Runs(strict, t, before), attempts[n]);
    }
  }

  lemma LastBefore(strict: bool, t: Target, attempts: seq<Attempt>, w: Option<nat>, l: Option<nat>)
    requires attempts != [] && LastWriter(strict, t, attempts, w) && LastLoader(strict, t, attempts, l)
    ensures var n := |attempts| - 1;
      && (if TouchedAt(strict, t, attempts, n) then w == Some(n) else LastWriter(strict, t, attempts[..n], w))
      && (if LoadedAt(strict, t, attempts, n) then l == Some(n) else LastLoader(strict, t, attempts[..n], l))
  {
    AtPrefix(strict, t, attempts, |attempts| - 1);
  }

  lemma RunOnce(strict: bool, t: Target, a: Attempt)
    ensures Run(strict, t, a).target ==
      Target(if Touches(strict, t, a) then Some(Left(a)) else t.content,
             if Touches(strict, t, a) && a.copyFault.Intact? then Some(a.text) else t.loaded)
  {
  }

  /** Over any number of runs, whatever fails in them, icinga has not loaded what is installed exactly if the last run
      that wrote to the target failed in the copy, and what the last successful copy before it had installed (or what was
      loaded at the start) is not what it left. */
  lemma CurrentExactly(strict: bool, t: Target, attempts: seq<Attempt>, w: Option<nat>, l: Option<nat>)
    requires Current(t) && LastWriter(strict, t, attempts, w) && LastLoader(strict, t, attempts, l)
    ensures !Current(Runs(strict, t, attempts)) <==>
      && w.Some? && !attempts[w.value].copyFault.Intact?
      && Loaded(t, attempts, l) != Some(Left(attempts[w.value]))
  {
    RunsExactly(strict, t, attempts, w, l);
    if w.Some? && attempts[w.value].copyFault.Intact? {
      assert LoadedAt(strict, t, attempts, w.value);
      assert l == w;
    }
    if l.Some? { assert TouchedAt(strict, t, attempts, l.value); }
  }

  /** A copy that fails after its last byte is never made good by runs with the same text: they find nothing to do. */
  lemma {:induction false} FailedSyncSticks(strict: bool, t: Target, text: Bytes, later: seq<Attempt>)
    requires t.content != Some(text) && t.loaded != Some(text)
    requires forall i :: 0 <= i < |later| ==>
      later[i].text == text && later[i].faults == NO_FAULTS && (strict ==> !later[i].unseen)
    ensures Runs(strict, t, [Attempt(text, false, false, NO_FAULTS, After(|text|))] + later) == t.(content := Some(text))
  {
    var failed := Attempt(text, false, false, NO_FAULTS, After(|text|));
    var attempts := [failed] + later;
    if later == [] {
      assert attempts[..0] == [] && attempts[0] == failed;
      CompareExactly(text, if t.content.Some? then t.content.value else [], NO_FAULTS);
      assert Cut(text, After(|text|)) == text;
    } else {
      var n := |later| - 1;
      FailedSyncSticks(strict, t, text, later[..n]);
      assert attempts[..|attempts| - 1] == [failed] + later[..n] && attempts[|attempts| - 1] == later[n];
      CompareExactly(text, text, NO_FAULTS);
    }
  }

  /** A run without failures brings icinga up to date exactly when it was, or the text is not already in the target. */
  lemma CleanRunRepairsExactly(strict: bool, t: Target, text: Bytes)
    ensures Current(Run(strict, t, Attempt(text, false, false, NO_FAULTS, Intact)).target) <==>
            Current(t) || t.content != Some(text)
  {
    CompareExactly(text, if t.content.Some? then t.content.value else [], NO_FAULTS);
  }

  /** An unchanged file is installed and loaded again because of a failure: in `generateIcingaZonesConf` after any in the
      comparison, in `writeIcingaConfig` after an unreported one, or if it does not see the file. */
  lemma UnchangedReloadedExactly(strict: bool, t: Target, a: Attempt)
    requires t.content == Some(a.text) && !a.createFails && a.copyFault.Intact?
    ensures Run(strict, t, a).reloaded <==>
      if strict then
        a.unseen || (!a.faults.stat && !a.faults.open &&
                     |Readable(a.text, a.faults.read1)| != |Readable(a.text, a.faults.read2)|)
      else a.faults != NO_FAULTS
  {
    CompareExactly(a.text, a.text, a.faults);
  }

  // --- The file system -----------------------------------------------------------------------------------------

  class FileSystem {
    var names: map<Path, Inode>
    var data: map<Inode, Bytes>
    var next: Inode
    var reloads: nat
    // What icinga has loaded.
    ghost var loaded: Option<Bytes>

    ghost function Now(): FS
      reads this
    {
      FS(names, data, next)
    }

    ghost function At(p: Path): Target
      reads this
    {
      Target(Content(Now(), p), loaded)
    }

    method FileCmp(file1: Path, file2: Path, faults: Faults) returns (same: bool, failed: bool)
      requires Valid(Now())
      ensures file1 !in names || file2 !in names || faults.stat ==> failed
      ensures same ==> !failed && Content(Now(), file1) == Content(Now(), file2)
      ensures file1 in names && file2 in names && names[file1] == names[file2] && !faults.stat ==> same
      ensures file1 in names && file2 in names && faults == NO_FAULTS ==>
              !failed && (same <==> Content(Now(), file1) == Content(Now(), file2))
      ensures var verdict := Compared(Now(), file1, file2, faults);
        (same <==> verdict == Same) && (failed <==> verdict == Unreadable)
    {
      if file1 !in names || file2 !in names || faults.stat {
        return false, true;
      }
      if names[file1] == names[file2] {
        return true, false;
      }
      if |data[names[file1]]| != |data[names[file2]]| {
        return false, false;
      }
      if faults.open {
        return false, true;
      }
      var f1 := new Handle(data[names[file1]], faults.read1);
      var f2 := new Handle(data[names[file2]], faults.read2);
      same, failed := CompareChunks(f1, f2);
    }

    /** `os.Create` and the writes to the file. */
    method WriteFile(p: Path, text: Bytes)
      modifies this`names, this`data, this`next
      ensures Now() == Write(old(Now()), p, text)
    {
      if p in names {
        data := data[names[p] := text];
      } else {
        names, data, next := names[p := next], data[next := text], next + 1;
      }
    }

    method CopyFile(src: Path, dst: Path, fault: CopyFault) returns (failed: bool)
      requires Valid(Now())
      modifies this`names, this`data, this`next
      ensures Valid(Now())
      ensures failed <==> src !in old(names) || !fault.Intact?
      ensures Now() == if src in old(names) then Copy(old(Now()), src, dst, fault) else old(Now())
    {
      if src !in names || fault.NotOpened? {
        return true;
      }
      WriteFile(dst, []);
      var content := data[names[src]];
      if fault.After? {
        WriteFile(dst, content[..Min(fault.bytes, |content|)]);
        return true;
      }
      WriteFile(dst, content);
      return false;
    }

    /** The copy and the reload after it. */
    method CopyAndReload(src: Path, dst: Path, fault: CopyFault) returns (failed: bool)
      requires Valid(Now()) && src in names
      modifies this
      ensures Valid(Now()) && Now() == Copy(old(Now()), src, dst, fault)
      ensures failed <==> !fault.Intact?
      ensures reloads == old(reloads) + if failed then 0 else 1
      ensures loaded == if failed then old(loaded) else Content(Now(), dst)
    {
      CopyContent(Now(), src, dst, fault, dst);
      failed := CopyFile(src, dst, fault);
      if !failed {
        reloads := reloads + 1;
        loaded := Content(Now(), dst);
      }
    }

    /** The end of `generateIcingaZonesConf`. A failed comparison counts as a difference. */
    method GenerateConf(a: Attempt, tmp: Path, dst: Path) returns (failed: bool)
      requires Valid(Now())
      modifies this
      ensures Valid(Now())
      ensures failed ==> reloads == old(reloads)
      ensures !failed ==>
        Content(Now(), dst) == Some(if SameFile(old(Now()), tmp, dst) && a.faults.stat then [] else a.text)
      ensures !SameFile(old(Now()), tmp, dst) ==>
        && !SameFile(Now(), tmp, dst)
        && Outcome(At(dst), reloads == old(reloads) + 1, failed) == Run(false, old(At(dst)), a)
        && old(reloads) <= reloads <= old(reloads) + 1
      ensures !failed && a.faults == NO_FAULTS ==>
        var (fs, reload) := Install(old(Now()), a.text, tmp, dst);
        Now() == fs && reloads == old(reloads) + if reload then 1 else 0
    {
      if a.createFails {
        return true;
      }
      WrittenFirst(Now(), tmp, a.text, dst);
      WriteFile(tmp, a.text);
      var same, cmpFailed := FileCmp(tmp, dst, a.faults);
      if cmpFailed {
        same := false;
      }
      if same {
        return false;
      }
      CopyContent(Now(), tmp, dst, a.copyFault, dst);
      StaysApart(Now(), tmp, dst, a.copyFault);
      failed := CopyAndReload(tmp, dst, a.copyFault);
    }

    /** `writeIcingaConfig` after rendering: a failed comparison is an error, and the temporary file is removed. */
    method WriteIcingaConfig(a: Attempt, filename: Path) returns (failed: bool)
      requires Valid(Now())
      modifies this
      ensures Valid(Now())
      ensures failed ==> reloads == old(reloads)
      ensures !failed ==>
        Content(Now(), filename) ==
        Some(if SameFile(old(Now()), TmpFile(filename), filename) && a.unseen then [] else a.text)
      ensures if a.createFails then Now() == old(Now()) else TmpFile(filename) !in names
      ensures !SameFile(old(Now()), TmpFile(filename), filename) ==>
        && Outcome(At(filename), reloads == old(reloads) + 1, failed) == Run(true, old(At(filename)), a)
        && old(reloads) <= reloads <= old(reloads) + 1
      ensures !failed && a.faults == NO_FAULTS && !a.unseen ==>
        var (fs, reload) := Install(old(Now()), a.text, TmpFile(filename), filename);
        && Now() == fs.(names := fs.names - {TmpFile(filename)})
        && reloads == old(reloads) + if reload then 1 else 0
    {
      var tmp := TmpFile(filename);
      if a.createFails {
        return true;
      }
      WrittenFirst(Now(), tmp, a.text, filename);
      WriteFile(tmp, a.text);
      CopyContent(Now(), tmp, filename, a.copyFault, filename);
      failed := Update(a, tmp, filename);
      Remove(tmp);
    }

    /** From the look for an installed file on. */
    method Update(a: Attempt, tmp: Path, filename: Path) returns (failed: bool)
      requires Valid(Now()) && tmp in names
      modifies this
      ensures Valid(Now())
      ensures var verdict := Compared(old(Now()), tmp, filename, a.faults);
        if filename !in old(names) || a.unseen || verdict == Different then
          && Now() == Copy(old(Now()), tmp, filename, a.copyFault)
          && (failed <==> !a.copyFault.Intact?)
          && reloads == old(reloads) + (if failed then 0 else 1)
          && loaded == if failed then old(loaded) else Content(Now(), filename)
        else
          && Now() == old(Now()) && reloads == old(reloads) && loaded == old(loaded)
          && (failed <==> verdict == Unreadable)
    {
      if filename in names && !a.unseen {
        var same;
        same, failed := FileCmp(tmp, filename, a.faults);
        if same || failed {
          return;
        }
      }
      failed := CopyAndReload(tmp, filename, a.copyFault);
    }

    method Remove(p: Path)
      requires Valid(Now())
      modifies this`names
      ensures Valid(Now()) && Now() == old(Now()).(names := old(names) - {p})
    {
      names := names - {p};
    }
  }

  /** After the temporary file has been written. */
  lemma WrittenFirst(fs: FS, tmp: Path, text: Bytes, dst: Path)
    requires Valid(fs)
    ensures var w := Write(fs, tmp, text);
      && Valid(w) && Content(w, tmp) == Some(text)
      && (SameFile(w, tmp, dst) <==> SameFile(fs, tmp, dst))
      && Content(w, dst) == (if SameFile(fs, tmp, dst) then Some(text) else Content(fs, dst))
  {
    WriteContent(fs, tmp, text, dst);
    WriteContent(fs, tmp, text, tmp);
  }

  lemma StaysApart(fs: FS, src: Path, dst: Path, fault: CopyFault)
    requires Valid(fs) && src in fs.names
    ensures SameFile(Copy(fs, src, dst, fault), src, dst) <==> SameFile(fs, src, dst)
  {
    if !fault.NotOpened? {
      WriteContent(fs, dst, [], src);
    }
  }
}
