/** The zones file from the configuration to the installed file. */
module ZonesFile {
  import opened Prelude
  import opened IcingaConf
  import opened Files
  import opened Rendering

  /** Once the file is installed, generating it again changes no file and reloads nothing, although Go iterates the
      two maps in other orders then. */
  lemma SecondRunReloadsNothing(texts: Texts, zones: Zones, a: seq<Bytes>, ca: seq<Bytes>, b: seq<Bytes>, cb: seq<Bytes>,
                                fs: FS, tmp: Path, dst: Path)
    requires Valid(fs) && Orders(zones, a, ca) && Orders(zones, b, cb)
    ensures var r := Install(fs, FileText(texts, zones, a, ca), tmp, dst).0;
      Install(r, FileText(texts, zones, b, cb), tmp, dst) == (r, false)
  {
    FileCanonical(texts, zones, a, ca, b, cb);
    InstallTwice(fs, FileText(texts, zones, a, ca), tmp, dst);
  }

  /** `generateIcingaZonesConf`: `failures` is what fails in the run. */
  method GenerateIcingaZonesConf(system: FileSystem, texts: Texts, zones: Zones,
                                 order: seq<Bytes>, customerOrder: seq<Bytes>, tmp: Path, dst: Path,
                                 failures: Attempt)
    returns (failed: bool, ghost pieces: seq<Piece>, ghost at: seq<nat>, ghost heads: seq<nat>)
    requires Valid(system.Now()) && Orders(zones, order, customerOrder)
    modifies system
    ensures Valid(system.Now())
    ensures !failed ==>
      Content(system.Now(), dst) ==
      Some(if SameFile(old(system.Now()), tmp, dst) && failures.faults.stat then []
           else FileText(texts, zones, order, customerOrder))
    ensures Consists(texts, zones, FileText(texts, zones, order, customerOrder), pieces, at)
    ensures Follows(FileLayout(zones, order, customerOrder), pieces, heads)
    ensures forall n :: Block(n) in pieces <==> n in zones && (n == [] || n[0] != '_')
    ensures failed ==> system.reloads == old(system.reloads)
    ensures !SameFile(old(system.Now()), tmp, dst) ==>
      var a := failures.(text := FileText(texts, zones, order, customerOrder));
      Outcome(system.At(dst), system.reloads == old(system.reloads) + 1, failed) == Run(false, old(system.At(dst)), a)
    ensures !failed && failures.faults == NO_FAULTS && !SameFile(old(system.Now()), tmp, dst) ==>
      (system.reloads == old(system.reloads) + 1 <==>
        Content(old(system.Now()), dst) != Some(FileText(texts, zones, order, customerOrder)))
  {
    var text := GenerateFile(texts, zones, order, customerOrder);
    InstallExactly(system.Now(), text, tmp, dst, dst);
    pieces, at, heads := FileTextExactly(texts, zones, order, customerOrder);
    forall n ensures Block(n) in pieces <==> n in zones && (n == [] || n[0] != '_') {
      BlockIn(zones, order, customerOrder, pieces, heads, n);
    }
    failed := system.GenerateConf(failures.(text := text), tmp, dst);
  }
}
