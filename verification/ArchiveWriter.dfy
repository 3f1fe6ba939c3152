/** The writer behind the public interface (archive/writer.rs): it aborts its archive
    on the first error, so only complete sets are ever installed. */
module ArchiveWriter {
  import opened Options
  import opened Vint
  import opened VolumeLayout
  import opened VolumeWriter
  import opened Lifecycle
  import Filling
  import MemberSplit

  /** A set of files that is a whole archive: every volume finished, numbered in order,
      and saying that another follows except the last. */
  ghost predicate WholeSet(c: Config, volumes: seq<Volume>, files: seq<seq<byte>>) {
    && |volumes| == |files| > 0
    && (forall i :: 0 <= i < |files| ==>
          files[i] == Finished(c, volumes[i], i < |files| - 1)
          && ValidVolume(volumes[i]) && volumes[i].number == NumberOf(i))
  }

  /** When it is sure beforehand which records a volume will carry, no file is larger than
      asked for. */
  ghost predicate FilesWithin(c: Config, volumeSize: nat, files: seq<seq<byte>>) {
    c.recovery.None? && !(c.quickOpen && c.quickOpenAuto) ==> forall file :: file in files ==> |file| <= volumeSize
  }

  lemma FilesAreWithin(c: Config, volumeSize: nat, volumes: seq<Volume>, files: seq<seq<byte>>)
    requires WholeSet(c, volumes, files) && MemberSplit.EachWithin(c, volumeSize, volumes)
    ensures FilesWithin(c, volumeSize, files)
  {
    hide Finished;
  }

  class ArchiveWriter {
    const cfg: Config
    const volumeSize: Option<nat>
    const target: FinalPaths
    var archive: RarArchive?

    ghost predicate Valid()
      reads this, archive
    {
      archive != null ==>
        && archive.Writing() && archive.cfg == cfg && archive.target == target && archive.volumeSize == volumeSize
        && MemberSplit.AllMade(archive) && (archive.done != [] ==> archive.volume.items != [])
    }

    constructor (cfg: Config, volumeSize: Option<nat>, recoveryVolumes: bool, faults: nat -> Fault, target: FinalPaths)
      requires ValidConfig(cfg) && cfg.multi == volumeSize.Some?
      modifies target
      ensures Valid() && this.cfg == cfg && this.volumeSize == volumeSize && this.target == target
      ensures target.sets == old(target.sets)
      ensures archive != null ==> fresh(archive) && archive.volume == Volume(None, [], []) && archive.done == []
    {
      this.cfg, this.volumeSize, this.target := cfg, volumeSize, target;
      var created := new RarArchive(cfg, volumeSize, recoveryVolumes, faults, target);
      var ok := created.OpenWrite();
      archive := if ok then created else null;
      Filling.FreshMade(cfg, volumeSize, None);
      new;
      if !ok {
        created.Abort();
        var outcome := created.Drop();
      }
    }

    /** Abort the archive and let it go; the drop that follows finds nothing to do. */
    method Discard()
      requires archive != null && archive.Sane() && archive.target == target
      modifies this, archive, target
      ensures archive == null && target.sets == old(target.sets)
      ensures old(archive).pending == Nothing && !old(archive).open
    {
      archive.Abort();
      var outcome := archive.Drop();
      archive := null;
    }

    /** Add a member: whole, or in chunks over as many volumes as it takes. When it
        succeeds the archive holds its payload more, in order, and nothing else; and
        without a recovery record and the automatic rule every volume of it would, if
        finished now, keep its size. */
    method AddFile(h: MemberSplit.Headers, data: seq<byte>) returns (ok: bool, ghost items: seq<Item>)
      requires Valid() && MemberSplit.ValidHeaders(h)
      requires archive != null ==> archive.currentVolume + 2 * |data| + 2 < U64
      modifies this, archive, target
      ensures Valid() && target.sets == old(target.sets)
      ensures !ok ==> archive == null
      ensures ok ==> && archive == old(archive) && archive != null && MemberSplit.Payload(items) == data
                     && MemberSplit.Contents(archive) == old(MemberSplit.Contents(archive)) + items
      ensures ok ==> MemberSplit.SizesKept(archive)
    {
      items := [];
      if archive == null {
        return false, [];
      }
      hide InFile; hide InSet; hide FieldsKnown; hide MemberSplit.Contents; hide MemberSplit.ValidHeaders;
      hide MemberSplit.SetMade; hide MemberSplit.Payload; hide MemberSplit.SizesKept;
      var r;
      r, items := MemberSplit.WriteFileEntry(archive, h, data);
      ok := r == MemberSplit.Written;
      if !ok {
        Discard();
      }
    }

    /** Close and hand the set over. Whatever reaches the final paths is a whole
        archive of exactly the members added, even when an error is reported. */
    method Finish() returns (ok: bool)
      requires Valid()
      modifies this, archive, target
      ensures archive == null
      ensures old(archive) == null ==> !ok && target.sets == old(target.sets)
      ensures ok ==> |target.sets| == |old(target.sets)| + 1
      ensures target.sets == old(target.sets)
           || (|target.sets| == |old(target.sets)| + 1 && target.sets[..|old(target.sets)|] == old(target.sets)
               && old(archive) != null
               && WholeSet(cfg, old(archive.done) + [old(archive.volume)], target.sets[|old(target.sets)|]))
      ensures old(archive) != null && target.sets != old(target.sets) ==>
                forall v :: v in old(archive.done) + [old(archive.volume)] ==> Filling.Made(cfg, volumeSize, v)
      ensures old(archive) != null && target.sets != old(target.sets) && volumeSize.Some? && old(archive.volume.items) != [] ==>
                FilesWithin(cfg, volumeSize.value, target.sets[|old(target.sets)|])
    {
      if archive == null {
        return false;
      }
      hide InFile; hide InSet; hide FieldsKnown; hide Finished; hide WholeSet; hide FilesWithin; hide Filling.Made;
      hide MemberSplit.SetMade;
      WritingIsSane(archive);
      SetComplete(archive);
      var outcome := archive.Close();
      ok := outcome == Done;
      if ok {
        outcome := archive.Drop();
        archive := null;
      } else {
        Discard();
      }
    }

    /** Dropped before it was finished: nothing is installed. */
    method Drop()
      requires Valid()
      modifies this, archive, target
      ensures archive == null && target.sets == old(target.sets)
      ensures old(archive) != null ==> old(archive).pending == Nothing && !old(archive).open
    {
      if archive != null {
        WritingIsSane(archive);
        Discard();
      }
    }
  }

  lemma WritingIsSane(a: RarArchive)
    requires a.Writing()
    ensures a.Sane() && a.pending != Nothing && ValidVolume(a.volume)
    ensures a.open && a.FileMatches() && !a.finalizeStarted
    ensures InSet(a.cfg, a.done, a.staged, a.pending, a.volumePaths, a.currentVolume)
    ensures a.volume.number == NumberOf(|a.done|)
  {
  }

  /** Finished now, the set would be whole. */
  lemma SetComplete(a: RarArchive)
    requires a.Writing() && MemberSplit.AllMade(a)
    ensures var volumes, files := a.done + [a.volume], a.staged + [Finished(a.cfg, a.volume, false)];
            && WholeSet(a.cfg, volumes, files)
            && (forall v :: v in volumes ==> Filling.Made(a.cfg, a.volumeSize, v))
            && (a.volumeSize.Some? && a.volume.items != [] ==> FilesWithin(a.cfg, a.volumeSize.value, files))
  {
    hide InFile; hide FieldsKnown; hide Finished; hide Filling.Made; hide FilesWithin; hide MemberSplit.EachWithin;
    WritingIsSane(a);
    var volumes, files := a.done + [a.volume], a.staged + [Finished(a.cfg, a.volume, false)];
    if a.volumeSize.Some? && a.volume.items != [] {
      MemberSplit.MadeSizesKept(a);
      FilesAreWithin(a.cfg, a.volumeSize.value, volumes, files);
    }
  }

  /** Every volume of a whole set, read back: its header bears its number and names the
      places of its records, its catalog is its own, its parity is that of its own
      prefix, and the last alone has no next volume. */
  lemma WholeSetReads(c: Config, volumes: seq<Volume>, files: seq<seq<byte>>, i: nat, maxEntries: nat)
    requires ValidConfig(c) && WholeSet(c, volumes, files) && i < |files| && |files[i]| < U64 / 2
    ensures volumes[i].number == (if i == 0 then None else Some(i)) && LocatorNames(c, volumes[i], files[i])
    ensures EndsWithBlock(c.crc, files[i], i < |files| - 1)
    ensures Wanted(c, volumes[i]) <==> QuickOpenPart(c, volumes[i]) != []
    ensures Wanted(c, volumes[i]) ==> CatalogReads(c, volumes[i], files[i], maxEntries)
    ensures c.recovery.Some? ==> ParityReads(c, volumes[i], files[i])
  {
    hide Finished; hide LocatorNames; hide CatalogReads; hide ParityReads; hide EndsWithBlock; hide QuickOpenPart;
    hide Wanted;
    EndBlockReads(c, volumes[i], i < |files| - 1);
    LocatorReads(c, volumes[i], i < |files| - 1);
    QuickOpenReads(c, volumes[i], i < |files| - 1, maxEntries);
    if c.recovery.Some? {
      RecoveryReads(c, volumes[i], i < |files| - 1);
    }
  }
}
