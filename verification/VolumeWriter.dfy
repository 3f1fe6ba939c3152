/** Writing a RAR5 archive or volume set (archive/create.rs, archive/engine.rs,
    archive/mod.rs, archive/ctx.rs): members go into a staged file, volumes roll, the
    trailing records are written and the main header is patched in place, and closing
    installs the staged set. Every operation on a file can fail. */
module VolumeWriter {
  import opened Options
  import opened Vint
  import opened Blocks
  import opened VolumeLayout
  import opened Lifecycle
  import Locator
  import QuickOpen

  datatype Mode = Read | Write

  datatype Pending = Nothing | Single | Volumes

  /** What happens to an operation on a file: a failing write may leave some bytes, a
      failing installation may come after the files were replaced. */
  datatype Fault = Fine | Fails(after: nat)

  /** The final paths, and every set of files that was ever installed there. */
  class FinalPaths {
    var sets: seq<seq<seq<byte>>>

    constructor ()
      ensures sets == []
    {
      sets := [];
    }
  }

  function Overwrite(file: seq<byte>, pos: nat, bytes: seq<byte>): seq<byte>
    requires pos <= |file|
  {
    file[..pos] + bytes + if pos + |bytes| < |file| then file[pos + |bytes|..] else []
  }

  lemma OverwriteEnd(file: seq<byte>, bytes: seq<byte>)
    ensures Overwrite(file, |file|, bytes) == file + bytes
  {
  }

  lemma OverwriteMiddle(a: seq<byte>, b: seq<byte>, c: seq<byte>, bytes: seq<byte>)
    requires |bytes| == |b|
    ensures Overwrite(a + b + c, |a|, bytes) == a + bytes + c
  {
    var file := a + b + c;
    if |a| + |bytes| < |file| {
      assert file[|a| + |bytes|..] == c;
    } else {
      assert c == [];
    }
  }

  class RarArchive {
    const cfg: Config
    const volumeSize: Option<nat>
    const faults: nat -> Fault
    const target: FinalPaths
    var ops: nat                          // operations on files so far

    var file: seq<byte>                   // the staged file being written
    var pos: nat                          // and the position of its stream
    var open: bool                        // whether there is a stream
    var staged: seq<seq<byte>>            // the staged volumes before it

    var mode: Mode
    var finalizeStarted: bool
    var pending: Pending
    var volumePaths: nat
    var currentVolume: nat
    var bytesWritten: nat
    var recovery: Option<nat>
    var recoveryVolumes: bool             // whether .rev files were asked for
    var hit: bool
    var entries: seq<(nat, seq<byte>)>
    var headerStart: Option<nat>
    var qoField: Option<nat>
    var rrField: Option<nat>

    ghost var volume: Volume              // what the staged file was given
    ghost var done: seq<Volume>           // what the volumes before it were given
    ghost var begun: nat
    ghost var twice: bool
    ghost var installs: nat

    ghost function Stage(): Life
      reads this
    {
      Life(open, mode == Write, finalizeStarted, pending != Nothing, begun, twice, installs)
    }

    /** The staged file is exactly what was put into it. */
    ghost predicate FileMatches()
      reads this
    {
      && open && mode == Write && !finalizeStarted && recovery == cfg.recovery
      && InFile(cfg, volume, file, pos, entries, hit, bytesWritten)
      && FieldsKnown(cfg, volume.number, headerStart, qoField, rrField)
    }

    ghost predicate SetMatches()
      reads this
    {
      && cfg.multi == volumeSize.Some? && volume.number == NumberOf(|done|)
      && InSet(cfg, done, staged, pending, volumePaths, currentVolume)
    }

    /** No step failed so far. */
    ghost predicate Writing()
      reads this
    {
      FileMatches() && SetMatches()
    }

    /** An archive that has not been opened for writing yet. */
    constructor (cfg: Config, volumeSize: Option<nat>, recoveryVolumes: bool, faults: nat -> Fault, target: FinalPaths)
      ensures ValidConfig(cfg) && cfg.multi == volumeSize.Some? ==> Sane()
      ensures this.cfg == cfg && this.volumeSize == volumeSize && this.target == target
      ensures Stage() == Life(false, true, false, false, 0, false, 0)
      ensures recovery == cfg.recovery && entries == [] && !hit && staged == [] && done == []
      ensures volume == Volume(None, [], [])
    {
      this.cfg, this.volumeSize, this.faults, this.target := cfg, volumeSize, faults, target;
      ops, file, pos, open, staged := 0, [], 0, false, [];
      mode, finalizeStarted, pending := Write, false, Nothing;
      volumePaths, currentVolume, bytesWritten := 0, 0, 0;
      recovery, this.recoveryVolumes := cfg.recovery, recoveryVolumes;
      hit, entries, headerStart, qoField, rrField := false, [], None, None, None;
      volume, done, begun, twice, installs := Volume(None, [], []), [], 0, false, 0;
    }

    // -------------------------------------------------------------- files

    method Operate() returns (ok: bool)
      modifies this`ops
    {
      ok := faults(ops).Fine?;
      ops := ops + 1;
    }

    method WriteAll(bytes: seq<byte>) returns (ok: bool)
      requires open && pos <= |file|
      modifies this`file, this`pos, this`ops
      ensures pos <= |file|
      ensures ok ==> file == Overwrite(old(file), old(pos), bytes) && pos == old(pos) + |bytes|
    {
      var fault := faults(ops);
      ops := ops + 1;
      var n := if fault.Fails? && fault.after < |bytes| then fault.after else |bytes|;
      file := Overwrite(file, pos, bytes[..n]);
      pos := pos + n;
      assert bytes[..|bytes|] == bytes;
      ok := fault.Fine?;
    }

    /** Writing where the file ends. */
    method Append(bytes: seq<byte>) returns (ok: bool)
      requires open && pos <= |file|
      modifies this`file, this`pos, this`ops
      ensures pos <= |file|
      ensures ok && old(pos) == old(|file|) ==> file == old(file) + bytes && pos == |file|
    {
      OverwriteEnd(file, bytes);
      ok := WriteAll(bytes);
    }

    // -------------------------------------------------------------- headers

    method WriteArchiveHeader() returns (ok: bool)
      requires open && pos <= |file|
      modifies this`file, this`pos, this`ops, this`headerStart, this`qoField, this`rrField
      ensures pos <= |file|
      ensures ok && old(pos) == old(|file|) && !cfg.multi && recovery == cfg.recovery ==>
                HeaderWritten(old(file), None) && pos == |file|
    {
      var flags := if cfg.solid then 4 else 0;
      if recovery.Some? || cfg.quickOpen {
        if recovery.Some? {
          flags := flags + 8;
        }
        ok := WriteLocated(Locator.Shape(flags, None, cfg.quickOpen, recovery.Some?, cfg.width));
      } else {
        var b := Locator.BuildMainHeader(cfg.crc, Locator.Shape(flags, None, false, false, cfg.width));
        ok := Append(b.header);
      }
    }

    method WriteArchiveHeaderVol(number: Option<nat>) returns (ok: bool)
      requires open && pos <= |file|
      modifies this`file, this`pos, this`ops, this`headerStart, this`qoField, this`rrField
      ensures pos <= |file|
      ensures ok && old(pos) == old(|file|) && cfg.multi && recovery == cfg.recovery ==>
                HeaderWritten(old(file), number) && pos == |file|
    {
      var flags := 1;
      if recovery.Some? {
        flags := flags + 8;
      }
      ok := WriteLocated(Locator.Shape(flags, number, cfg.quickOpen, recovery.Some?, cfg.width));
    }

    /** The main header was appended and the positions of its fields were kept. */
    ghost predicate HeaderWritten(before: seq<byte>, number: Option<nat>)
      reads this
    {
      var b := Locator.BuildMainHeader(cfg.crc, ShapeOf(cfg, number));
      && file == before + b.header
      && ((cfg.quickOpen || cfg.recovery.Some?) ==>
            headerStart == Some(|before|) && qoField == b.qoField && rrField == b.rrField)
    }

    method WriteLocated(shape: Locator.Shape) returns (ok: bool)
      requires open && pos <= |file|
      modifies this`file, this`pos, this`ops, this`headerStart, this`qoField, this`rrField
      ensures pos <= |file|
      ensures var b := Locator.BuildMainHeader(cfg.crc, shape);
              ok && old(pos) == old(|file|) ==>
                file == old(file) + b.header && pos == |file|
                && headerStart == Some(old(pos)) && qoField == b.qoField && rrField == b.rrField
    {
      var b := Locator.BuildMainHeader(cfg.crc, shape);
      ok := Operate();
      if !ok {
        return false;
      }
      var start := pos;
      ok := Append(b.header);
      if ok {
        headerStart, qoField, rrField := Some(start), b.qoField, b.rrField;
      }
    }

    /** Create the staged file and write signature and main header. */
    method OpenWrite() returns (ok: bool)
      requires ValidConfig(cfg) && cfg.multi == volumeSize.Some? && recovery == cfg.recovery
      requires Sane() && Stage() == Life(false, true, false, false, 0, false, 0)
      requires entries == [] && !hit && staged == [] && done == [] && volume == Volume(None, [], [])
      modifies this`ops, this`volumePaths, this`currentVolume, this`pending, this`file, this`pos, this`open,
               this`headerStart, this`qoField, this`rrField, this`bytesWritten
      ensures ok ==> Writing() && Stage() == CREATED
      ensures Sane()
    {
      hide InFile; hide FieldsKnown; hide InSet;
      ok := StageFile();
      if ok {
        NothingStaged(cfg, currentVolume);
        ok := StartFile(None);
      }
    }

    /** Finish what an interrupted commit left, refuse a zero volume size, create the
        staged file. */
    method StageFile() returns (ok: bool)
      requires pos <= |file| && !open && pending == Nothing
      modifies this`ops, this`volumePaths, this`currentVolume, this`pending, this`file, this`pos, this`open
      ensures pos <= |file| && (pending == Volumes ==> volumeSize.Some?)
      ensures !ok ==> !open
      ensures ok ==> volumePaths == 1 && (volumeSize.Some? ==> currentVolume == 1)
                     && pending == (if volumeSize.Some? then Volumes else Single) && open && file == [] && pos == 0
    {
      ok := Operate();
      if !ok || volumeSize == Some(0) {
        return false;
      }
      volumePaths := 1;
      if volumeSize.Some? {
        currentVolume := 1;
      }
      pending := if volumeSize.Some? then Volumes else Single;
      ok := Operate();
      if ok {
        file, pos, open := [], 0, true;
      }
    }

    /** Signature and main header of a new file. */
    method StartFile(number: Option<nat>) returns (ok: bool)
      requires open && file == [] && pos == 0 && recovery == cfg.recovery
      requires cfg.multi == volumeSize.Some? && (!cfg.multi ==> number.None?)
      requires ValidConfig(cfg) && (number.Some? ==> number.value < U64)
      modifies this`file, this`pos, this`ops, this`headerStart, this`qoField, this`rrField, this`bytesWritten
      ensures pos <= |file|
      ensures ok ==> InFile(cfg, Volume(number, [], []), file, pos, [], false, bytesWritten)
      ensures ok ==> FieldsKnown(cfg, number, headerStart, qoField, rrField)
    {
      hide Locator.BuildMainHeader; hide InFile; hide ShapeOf;
      ok := Append(SIGNATURE);
      if !ok {
        return;
      }
      assert [] + SIGNATURE == SIGNATURE;
      if volumeSize.Some? {
        ok := WriteArchiveHeaderVol(number);
        if ok {
          ok := Operate();
          bytesWritten := pos;
        }
      } else {
        ok := WriteArchiveHeader();
      }
      if ok {
        assert file == Prologue(cfg, number);
        InFileStart(cfg, number, bytesWritten);
      }
    }

    // -------------------------------------------------------------- members

    /** A data run is about to go into this volume: the automatic rule. */
    method MarkQuickOpenData(run: nat)
      modifies this`hit, this`volume
      ensures hit == (old(hit) || (cfg.quickOpenAuto && run > 4096))
      ensures volume == old(volume).(runs := old(volume).runs + [run])
      ensures old(Writing()) ==> Writing()
    {
      hide InFile; hide InSet; hide FieldsKnown;
      if FileMatches() {
        InFileMarked(cfg, volume, file, pos, entries, hit, bytesWritten, run);
      }
      if cfg.quickOpenAuto && run > AUTO_THRESHOLD {
        hit := true;
      }
      volume := volume.(runs := volume.runs + [run]);
    }

    method RecordQuickOpenEntry(header: seq<byte>) returns (ok: bool)
      requires open
      modifies this`entries, this`ops
      ensures ok ==> entries == old(entries) + if cfg.quickOpen then [(pos, header)] else []
    {
      if !cfg.quickOpen {
        return true;
      }
      ok := Operate();
      if ok {
        entries := entries + [(pos, header)];
      }
    }

    /** A header and its data; a member's header is cached first. */
    method Emit(item: Item) returns (ok: bool)
      requires open && pos <= |file| && item.header != []
      modifies this`file, this`pos, this`ops, this`entries, this`bytesWritten, this`volume
      ensures pos <= |file| && Stage() == old(Stage()) && (old(Sane()) ==> Sane())
      ensures ok && old(Writing()) ==> Writing() && volume == old(volume).(items := old(volume).items + [item])
    {
      hide InFile; hide InSet; hide FieldsKnown;
      if FileMatches() {
        InFileNext(cfg, volume, item, file, pos, entries, hit, bytesWritten);
      }
      ok := EmitBytes(item);
      if ok {
        volume := volume.(items := volume.items + [item]);
      }
    }

    method EmitBytes(item: Item) returns (ok: bool)
      requires open && pos <= |file|
      modifies this`file, this`pos, this`ops, this`entries, this`bytesWritten
      ensures pos <= |file|
      ensures ok && old(pos) == old(|file|) ==>
                && file == old(file) + item.header + item.data && pos == |file|
                && entries == old(entries) + (if item.cached && cfg.quickOpen then [(old(pos), item.header)] else [])
                && bytesWritten == old(bytesWritten) + |item.header| + |item.data|
    {
      ok := true;
      assert entries == entries + [];
      if item.cached {
        ok := RecordQuickOpenEntry(item.header);
      }
      if !ok {
        return;
      }
      ok := Append(item.header);
      if !ok {
        return;
      }
      ok := Append(item.data);
      bytesWritten := bytesWritten + |item.header| + |item.data|;
    }

    // -------------------------------------------------------------- trailing records

    method QuickOpenRecordWanted() returns (r: bool)
      ensures r == (cfg.quickOpen && (!cfg.quickOpenAuto || hit))
    {
      return cfg.quickOpen && (!cfg.quickOpenAuto || hit);
    }

    /** The catalog of the cached headers, behind what is there; where it starts. */
    method WriteQuickOpenRecord() returns (r: Option<nat>)
      requires open && pos <= |file|
      modifies this`file, this`pos, this`ops
      ensures pos <= |file|
      ensures r.Some? && old(pos) == old(|file|) ==>
                && r == Some(old(pos)) && Distances(entries, old(pos)).Some? && pos == |file|
                && file == old(file) + Record(cfg, QUICK_OPEN_NAME, [],
                             QuickOpen.EncodePayload(cfg.crc, Distances(entries, old(pos)).value))
    {
      hide QuickOpen.EncodePayload; hide QuickOpen.EncodeEntry; hide ServiceBlock;
      var ok := Operate();
      if !ok {
        return None;
      }
      var start := pos;
      var payload: seq<byte> := [];
      ghost var found: seq<QuickOpen.Entry> := [];
      var i := 0;
      FoundNothing(cfg.crc, entries, start);
      while i < |entries|
        invariant 0 <= i <= |entries| && file == old(file) && pos == old(pos)
        invariant payload == QuickOpen.EncodePayload(cfg.crc, found)
        invariant Joined(found, Distances(entries[i..], start)) == Distances(entries, start)
      {
        var (offset, header) := entries[i];
        FoundNext(cfg.crc, entries, i, start, found);
        if offset > start {
          return None;
        }
        payload := payload + QuickOpen.EncodeEntry(cfg.crc, QuickOpen.Entry(start - offset, header));
        found := found + [QuickOpen.Entry(start - offset, header)];
        i := i + 1;
      }
      FoundAll(entries, start, found);
      ok := Append(ServiceBlock(cfg.crc, QUICK_OPEN_NAME, [], |payload|, cfg.hostOs));
      if !ok {
        return None;
      }
      ok := Append(payload);
      if !ok {
        return None;
      }
      return Some(start);
    }

    /** Read the main header back, patch its offset fields, write it over itself. */
    method PatchMainHeaderLocator(qo: Option<nat>, rr: Option<nat>, ghost rest: seq<byte>) returns (ok: bool)
      requires open && pos <= |file|
      modifies this`file, this`pos, this`ops
      ensures pos <= |file|
      ensures ok && old(Patchable(rest)) ==>
                pos == |file| && file == SIGNATURE + (PatchedHeader(volume.number, qo, rr) + rest)
    {
      hide Overwrite; hide Locator.Patched; hide Locator.BuildMainHeader; hide Locator.MainHeader; hide Locator.StoredIn; hide Prologue; hide Decode; hide ShapeOf;
      if headerStart.None? {
        return false;
      }
      var start := headerStart.value;
      ghost var before, fits := file, Patchable(rest);
      if fits {
        HeaderReadBack(cfg, volume.number, rest, qo, rr);
      }
      ok := Operate();
      if !ok || start + 5 > |file| {
        return false;
      }
      var size: nat, used: nat := 0, 0;
      match Decode(file[start..start + 5], 4) {
        case Decoded(value, n) =>
          size, used := value, n;
        case _ =>
          return false;
      }
      var total := 4 + used + size;
      ghost var b := Built(volume.number);
      assert fits ==> size == |b.header| - 5 && used == 1;
      if start + total > |file| || total < 5 {
        return false;
      }
      var plain := file[start..start + total];
      assert fits ==> Locator.Built(plain, qoField, rrField) == b;
      var hdr := new byte[total](i requires 0 <= i < |plain| => plain[i]);
      assert hdr[..] == plain;
      var patched := Locator.PatchLocatorFields(cfg.crc, hdr, qo, rr, Locator.Built(plain, qoField, rrField), BASE);
      if patched.None? {
        return false;
      }
      assert fits ==> hdr[..] == PatchedHeader(volume.number, qo, rr);
      pos := start;
      ok := WriteAll(hdr[..]);
      if !ok {
        return false;
      }
      ok := Operate();
      pos := |file|;
    }

    /** The main header is in the file where it was noted, as it was written. */
    ghost predicate Patchable(rest: seq<byte>)
      reads this
    {
      && file == Prologue(cfg, volume.number) + rest
      && ValidConfig(cfg) && (volume.number.Some? ==> volume.number.value < U64)
      && headerStart == Some(|SIGNATURE|)
      && Built(volume.number).qoField == qoField && Built(volume.number).rrField == rrField
    }

    /** The quick-open record, when this volume earns one. */
    method WriteCatalog() returns (ok: bool, qo: Option<nat>)
      requires open && pos <= |file|
      modifies this`file, this`pos, this`ops
      ensures pos <= |file|
      ensures ok && old(FileMatches()) ==>
                && file == old(file) + QuickOpenPart(cfg, volume) && pos == |file|
                && qo == if Wanted(cfg, volume) then Some(QuickOpenPos(cfg, volume)) else None
    {
      hide InFile; hide FieldsKnown; hide Record; hide Distances; hide QuickOpen.EncodePayload;
      if FileMatches() {
        BeforeCatalog(cfg, volume, file, pos, entries, hit, bytesWritten);
      }
      ok, qo := true, None;
      var wanted := QuickOpenRecordWanted();
      if wanted {
        qo := WriteQuickOpenRecord();
        ok := qo.Some?;
      }
    }

    /** Quick-open record and locator: what the recovery record is to protect. */
    method WriteCatalogAndLocator() returns (ok: bool)
      requires open && pos <= |file|
      modifies this`file, this`pos, this`ops
      ensures pos <= |file|
      ensures ok && old(FileMatches()) ==> file == Protected(cfg, volume) && pos == |file|
    {
      hide InFile; hide FieldsKnown; hide Protected; hide QuickOpenPart; hide Wanted; hide Locator.BuildMainHeader;
      hide Prologue; hide Bytes; hide QuickOpenPos;
      ghost var known, rest := FileMatches(), Bytes(volume.items) + QuickOpenPart(cfg, volume);
      if known {
        BeforePatch(cfg, volume, file, pos, entries, hit, bytesWritten, headerStart, qoField, rrField);
      }
      var qo;
      ok, qo := WriteCatalog();
      if !ok {
        return;
      }
      assert known ==> file == Prologue(cfg, volume.number) + rest;
      var rr: Option<nat> := None;
      if recovery.Some? {
        ok := Operate();
        rr := Some(pos);
      }
      if ok && (rr.Some? || cfg.quickOpen) {
        ok := PatchMainHeaderLocator(qo, rr, rest);
      }
    }

    /** The recovery record: parity over the staged file as it is. */
    method WriteRecoveryRecord() returns (ok: bool)
      requires open && pos <= |file|
      modifies this`file, this`pos, this`ops
      ensures pos <= |file|
      ensures ok && recovery == cfg.recovery && recovery.Some? && old(pos) == old(|file|) ==>
                file == old(file) + RecoveryPart(cfg, old(file)) && pos == |file|
    {
      hide ServiceBlock; hide RecoverySubdata;
      var percent := if recovery.Some? then recovery.value else 0;
      var size := pos;
      ok := Operate();
      if !ok {
        return;
      }
      var parity := cfg.parity(file[..size], percent);
      assert file[..|file|] == file;
      ok := Append(ServiceBlock(cfg.crc, RECOVERY_NAME, RecoverySubdata(percent), |parity|, cfg.hostOs));
      if ok {
        ok := Append(parity);
      }
    }

    /** The trailing records and the end block of the open volume. */
    method FinishVolume(nextVolume: bool) returns (ok: bool)
      requires open && pos <= |file|
      modifies this`file, this`pos, this`ops, this`begun, this`twice
      ensures pos <= |file| && Stage() == Begin(old(Stage()))
      ensures ok && old(FileMatches()) ==> file == Finished(cfg, volume, nextVolume)
    {
      hide InFile; hide FieldsKnown; hide Finished;
      ok := WriteTrailing(nextVolume);
      begun, twice := begun + 1, twice || begun >= 1;
    }

    /** Records and end block behind what the volume was given. */
    method WriteTrailing(nextVolume: bool) returns (ok: bool)
      requires open && pos <= |file|
      modifies this`file, this`pos, this`ops
      ensures pos <= |file|
      ensures ok && old(FileMatches()) ==> file == Finished(cfg, volume, nextVolume)
    {
      hide InFile; hide FieldsKnown; hide Protected; hide RecoveryPart; hide EndBlock; hide Finished;
      FinishedSplits(cfg, volume, nextVolume);
      ok := WriteCatalogAndLocator();
      if ok && recovery.Some? {
        ok := WriteRecoveryRecord();
      }
      if ok {
        ok := Append(EndBlock(cfg.crc, nextVolume));
      }
    }

    // -------------------------------------------------------------- the next volume

    /** What holds of an archive whatever failed. */
    ghost predicate Sane()
      reads this
    {
      && ValidConfig(cfg) && cfg.multi == volumeSize.Some? && pos <= |file|
      && (pending == Volumes ==> cfg.multi)
      && (open ==> mode == Write && recovery == cfg.recovery)
    }

    method StartNextVolume() returns (outcome: Outcome)
      requires Sane() && currentVolume + 1 < U64
      modifies this
      ensures Sane() && Possible(old(Stage()), Roll(outcome, open)) && Stage() == AfterRoll(old(Stage()), outcome, open)
      ensures outcome == Done && old(Writing()) ==>
                Writing() && done == old(done) + [old(volume)] && volume == Volume(Some(|done|), [], [])
      ensures pending == old(pending) && (outcome == Done ==> pending == Volumes)
    {
      hide InFile; hide InSet; hide FieldsKnown; hide Finished; hide AfterRoll; hide Possible;
      ghost var s := Stage();
      RollEnds(s, open);
      if !open {
        return Refused;
      }
      outcome := LeaveVolume();
      if outcome == Done {
        var ok := StartNextFile();
        outcome := if ok then Done else OpenFailed;
      }
      RollEnds(s, open);
    }

    /** Signature and main header of the next file. */
    method StartNextFile() returns (ok: bool)
      requires AtNextFile() && mode == Write && currentVolume < U64
      requires ValidConfig(cfg) && cfg.multi && volumeSize.Some?
      modifies this`file, this`pos, this`ops, this`headerStart, this`qoField, this`rrField, this`bytesWritten
      ensures pos <= |file| && (ok && !finalizeStarted ==> FileMatches())
    {
      hide InFile; hide FieldsKnown; hide ValidConfig;
      ok := StartFile(Some(currentVolume - 1));
    }

    /** The next file is there, and nothing in it yet. */
    ghost predicate AtNextFile()
      reads this
    {
      && pending == Volumes && entries == [] && !hit && open && file == [] && pos == 0 && recovery == cfg.recovery
      && currentVolume > 0 && volume == Volume(Some(currentVolume - 1), [], [])
    }

    /** Finish the open volume and stage the next file. */
    method LeaveVolume() returns (outcome: Outcome)
      requires Sane() && open && currentVolume + 1 < U64
      modifies this
      ensures outcome == Done || outcome == TrailingFailed || outcome == OpenFailed
      ensures Sane() && Stage() == AfterRoll(old(Stage()), outcome, open)
      ensures pending == old(pending) && finalizeStarted == old(finalizeStarted)
      ensures currentVolume <= old(currentVolume) + 1
      ensures outcome == OpenFailed ==> !open
      ensures outcome == Done ==> currentVolume == old(currentVolume) + 1 && AtNextFile()
      ensures outcome == Done && old(Writing()) ==> SetMatches() && done == old(done) + [old(volume)]
    {
      hide InFile; hide InSet; hide FieldsKnown; hide Finished; hide ValidVolume; hide NumberOf; hide Earned; hide Wanted;
      hide QuickOpenPos; hide AfterRoll; hide ValidConfig; hide Begin;
      RollKeeps(Stage());
      if Writing() {
        InFileValid(cfg, volume, file, pos, entries, hit, bytesWritten);
      }
      var ok := FinishVolume(true);
      outcome := TrailingFailed;
      if ok {
        ok := MoveOn();
        outcome := if ok then Done else OpenFailed;
      }
    }

    /** Leave the finished volume behind, as one more of the set. */
    method MoveOn() returns (ok: bool)
      requires recovery == cfg.recovery
      modifies this`entries, this`hit, this`open, this`currentVolume, this`volumePaths, this`staged, this`file,
               this`pos, this`ops, this`begun, this`done, this`volume
      ensures currentVolume == old(currentVolume) + 1 && begun == 0 && open == ok && (ok ==> AtNextFile())
      ensures old(pos) <= |old(file)| ==> pos <= |file|
      ensures ok && old(SetMatches() && ValidVolume(volume) && file == Finished(cfg, volume, true)) ==>
                SetMatches() && done == old(done) + [old(volume)]
    {
      hide InSet; hide Finished; hide ValidVolume; hide NumberOf; hide ValidConfig;
      if SetMatches() && ValidVolume(volume) && file == Finished(cfg, volume, true) {
        InSetNext(cfg, done, volume, staged, pending, volumePaths, currentVolume);
      }
      ok := CreateNextFile();
    }

    /** Leave the finished volume behind and stage the next file. */
    method CreateNextFile() returns (ok: bool)
      modifies this`entries, this`hit, this`open, this`currentVolume, this`volumePaths, this`staged, this`file,
               this`pos, this`ops, this`begun, this`done, this`volume
      ensures currentVolume == old(currentVolume) + 1 && begun == 0
      ensures ok ==> && volume == Volume(Some(currentVolume - 1), [], []) && done == old(done) + [old(volume)]
                     && pending == Volumes && entries == [] && !hit && open && file == [] && pos == 0
                     && volumePaths == old(volumePaths) + 1 && staged == old(staged) + [old(file)]
      ensures !ok ==> !open && staged == old(staged) && file == old(file) && pos == old(pos)
    {
      entries, hit := [], false;
      open, begun := false, 0;
      currentVolume := currentVolume + 1;
      if pending != Volumes {
        return false;
      }
      volumePaths := volumePaths + 1;
      ok := Operate();
      if ok {
        BeginFile();
      }
    }

    /** The file finished joins the staged ones, and an empty one is opened. */
    method BeginFile()
      requires currentVolume > 0
      modifies this`staged, this`file, this`pos, this`open, this`done, this`volume
      ensures open && file == [] && pos == 0 && staged == old(staged) + [old(file)]
      ensures volume == Volume(Some(currentVolume - 1), [], []) && done == old(done) + [old(volume)]
    {
      staged := staged + [file];
      file, pos, open := [], 0, true;
      done, volume := done + [volume], Volume(Some(currentVolume - 1), [], []);
    }

    // -------------------------------------------------------------- close, abort, drop

    /** Move the staged files over the final paths. */
    method CommitPending() returns (outcome: Outcome)
      modifies this`pending, this`recoveryVolumes, this`ops, this`installs, target
      ensures outcome == Done || outcome == NotInstalled || outcome == InstalledAnyway
      ensures pending == if outcome == Done then Nothing else old(pending)
      ensures Stage() == AfterCommit(old(Stage()), outcome)
      ensures old(pending) == Nothing ==> outcome == Done
      ensures target.sets == old(target.sets) +
                if old(pending) != Nothing && outcome != NotInstalled then [staged + [file]] else []
    {
      assert target.sets == target.sets + [];
      if pending == Nothing {
        return Done;
      }
      if pending == Volumes {
        var ok := true;
        if recoveryVolumes && volumePaths >= 2 {
          ok := Operate();
        }
        if !ok || volumePaths != |staged| + 1 {
          return NotInstalled;
        }
      }
      var fault := faults(ops);
      ops := ops + 1;
      if fault == Fails(0) {
        return NotInstalled;
      }
      target.sets := target.sets + [staged + [file]];
      installs := installs + 1;
      if fault.Fails? {
        return InstalledAnyway;
      }
      pending, recoveryVolumes := Nothing, false;
      return Done;
    }

    /** Trailing records of the last volume, once. */
    method FinishWriting() returns (ok: bool)
      requires Sane() && !finalizeStarted
      modifies this`file, this`pos, this`ops, this`begun, this`twice, this`finalizeStarted, this`mode
      ensures pos <= |file| && finalizeStarted
      ensures Stage() == AfterFinish(old(Stage()), if ok then Done else TrailingFailed)
      ensures !ok ==> old(open)
      ensures ok && old(FileMatches()) ==> file == Finished(cfg, volume, false)
    {
      ok := true;
      if open && mode == Write {
        ok := FinishVolume(false);
      }
      finalizeStarted := true;
      if open && ok {
        mode := Read;
      }
    }

    method Close() returns (outcome: Outcome)
      requires Sane()
      modifies this, target
      ensures Sane() && ClosesWith(old(Stage()), outcome) && Stage() == AfterClose(old(Stage()), outcome)
      ensures staged == old(staged) && volume == old(volume) && done == old(done) && pos <= |file|
      ensures target.sets == old(target.sets) + if installs > old(installs) then [staged + [file]] else []
      ensures installs > old(installs) && old(FileMatches()) ==> file == Finished(cfg, volume, false)
      ensures old(open) && outcome == Done && old(pending) != Nothing ==> installs > old(installs)
    {
      assert target.sets == target.sets + [];
      hide InFile; hide FieldsKnown; hide Finished; hide AfterClose; hide ClosesWith;
      RefusedClose(Stage());
      var ok := Operate();
      if !ok {
        outcome := Cancelled;
      } else if finalizeStarted {
        outcome := Refused;
      } else {
        outcome := Finalize();
      }
    }

    /** What closing does behind its guards. */
    method Finalize() returns (outcome: Outcome)
      requires Sane() && !finalizeStarted
      modifies this, target
      ensures Sane() && ClosesWith(old(Stage()), outcome) && Stage() == AfterClose(old(Stage()), outcome)
      ensures outcome != Cancelled && outcome != Refused
      ensures staged == old(staged) && volume == old(volume) && done == old(done)
      ensures target.sets == old(target.sets) + if installs > old(installs) then [staged + [file]] else []
      ensures installs > old(installs) && old(FileMatches()) ==> file == Finished(cfg, volume, false)
      ensures old(open) && outcome == Done && old(pending) != Nothing ==> installs > old(installs)
    {
      hide InFile; hide FieldsKnown; hide Finished; hide AfterFinish; hide AfterCommit; hide AfterClose; hide ClosesWith;
      ghost var s := Stage();
      var ok := FinishWriting();
      outcome := TrailingFailed;
      assert target.sets == target.sets + [];
      if ok {
        open := false;
        outcome := CommitPending();
      }
      FinalizeLife(s, ok, outcome);
    }

    method Abort()
      requires Sane()
      modifies this
      ensures Sane() && Stage() == AfterAbort(old(Stage())) && pending == Nothing
    {
      open, mode, finalizeStarted := false, Read, false;
      recoveryVolumes, recovery := false, None;
      CleanUp();
    }

    /** Remove the staged files that are still pending. */
    method CleanUp()
      modifies this`pending, this`staged, this`file, this`pos
      ensures pending == Nothing
      ensures old(pending) != Nothing ==> staged == [] && file == [] && pos == 0
      ensures old(pending) == Nothing ==> staged == old(staged) && file == old(file) && pos == old(pos)
    {
      if pending != Nothing {
        pending, staged, file, pos := Nothing, [], [], 0;
      }
    }

    method Drop() returns (outcome: Outcome)
      requires Sane()
      modifies this, target
      ensures Stage() == AfterDrop(old(Stage()), outcome) && Possible(old(Stage()), Lifecycle.Drop(outcome))
      ensures pending == Nothing && !open
      ensures |target.sets| == |old(target.sets)| + (installs - old(installs)) && old(target.sets) <= target.sets
      ensures old(pending) == Nothing || old(finalizeStarted) ==> target.sets == old(target.sets)
    {
      outcome := Refused;
      if !finalizeStarted {
        outcome := Close();
      }
      CleanUp();
      open := false;
    }

    // -------------------------------------------------------------- specification

    ghost function Built(number: Option<nat>): Locator.Built {
      Locator.BuildMainHeader(cfg.crc, ShapeOf(cfg, number))
    }

    ghost function PatchedHeader(number: Option<nat>, qo: Option<nat>, rr: Option<nat>): seq<byte> {
      Locator.MainHeader(cfg.crc, ShapeOf(cfg, number),
        Locator.StoredIn(cfg.quickOpen, qo, BASE, cfg.width),
        Locator.StoredIn(cfg.recovery.Some?, rr, BASE, cfg.width))
    }
  }

  /** A file is exactly what was put into it, and the cache and the flag are those of
      that file. */
  ghost predicate InFile(c: Config, v: Volume, file: seq<byte>, pos: nat, entries: seq<(nat, seq<byte>)>,
                         hit: bool, bytesWritten: nat) {
    && ValidConfig(c) && ValidVolume(v)
    && file == Prologue(c, v.number) + Bytes(v.items) && pos == |file|
    && entries == Catalog(c, v) && hit == (c.quickOpenAuto && Earned(v.runs))
    && (c.multi ==> bytesWritten == |file|)
  }

  /** The noted positions are those of the main header. */
  ghost predicate FieldsKnown(c: Config, number: Option<nat>, start: Option<nat>, qoField: Option<nat>, rrField: Option<nat>) {
    var b := Locator.BuildMainHeader(c.crc, ShapeOf(c, number));
    (c.quickOpen || c.recovery.Some?) ==> start == Some(|SIGNATURE|) && qoField == b.qoField && rrField == b.rrField
  }

  /** The volumes left behind are finished, and numbered in order. */
  ghost predicate InSet(c: Config, done: seq<Volume>, staged: seq<seq<byte>>, pending: Pending,
                        volumePaths: nat, currentVolume: nat) {
    && pending == (if c.multi then Volumes else Single)
    && (!c.multi ==> done == [])
    && |staged| == |done| && volumePaths == |done| + 1
    && (c.multi ==> currentVolume == |done| + 1)
    && (forall i :: 0 <= i < |done| ==> staged[i] == Finished(c, done[i], true) && ValidVolume(done[i]))
    && (forall i :: 0 <= i < |done| ==> done[i].number == NumberOf(i))
  }

  /** What leaving a volume does to the flags, before the next is open. */
  lemma RollKeeps(s: Life)
    ensures forall stream :: AfterRoll(s, TrailingFailed, stream) == Begin(s)
    ensures forall stream :: AfterRoll(s, OpenFailed, stream) == Begin(s).(open := stream, begun := 0)
    ensures forall stream :: AfterRoll(s, Done, stream) == Begin(s).(begun := 0)
    ensures Begin(s) == s.(begun := Begin(s).begun, twice := Begin(s).twice)
  {
  }

  lemma RollEnds(s: Life, stream: bool)
    ensures AfterRoll(s, Refused, stream) == s
    ensures Possible(s, Roll(Refused, stream)) <==> !(s.open && s.writing)
    ensures forall o :: (o == Done || o == TrailingFailed || o == OpenFailed) && s.open && s.writing ==>
              Possible(s, Roll(o, stream))
    ensures s.open ==> AfterRoll(s, Done, true) == AfterRoll(s, OpenFailed, true)
  {
  }

  /** A close stopped by its guards changes nothing. */
  lemma RefusedClose(s: Life)
    ensures ClosesWith(s, Cancelled) && AfterClose(s, Cancelled) == s
    ensures s.finalizeStarted ==> ClosesWith(s, Refused) && AfterClose(s, Refused) == s
  {
  }

  /** What finalizing does to the flags, whichever way it ends. */
  lemma FinalizeLife(s: Life, ok: bool, outcome: Outcome)
    requires !s.finalizeStarted && (!ok ==> outcome == TrailingFailed && s.open && s.writing)
    requires ok ==> outcome == Done || (s.pending && (outcome == NotInstalled || outcome == InstalledAnyway))
    ensures ClosesWith(s, outcome)
    ensures AfterClose(s, outcome)
         == if ok then AfterCommit(AfterFinish(s, Done).(open := false), outcome) else AfterFinish(s, TrailingFailed)
    ensures AfterFinish(s, TrailingFailed).installs == s.installs == AfterFinish(s, Done).installs
    ensures AfterFinish(s, Done).pending == s.pending && AfterFinish(s, TrailingFailed).pending == s.pending
    ensures !ok ==> AfterFinish(s, TrailingFailed).writing
    ensures ok ==> (AfterClose(s, outcome).installs > s.installs <==> s.pending && outcome != NotInstalled)
  {
  }

  lemma InFileValid(c: Config, v: Volume, file: seq<byte>, pos: nat, entries: seq<(nat, seq<byte>)>,
                    hit: bool, bytesWritten: nat)
    requires InFile(c, v, file, pos, entries, hit, bytesWritten)
    ensures ValidVolume(v)
  {
  }

  /** A file ready for its quick-open record. */
  lemma BeforeCatalog(c: Config, v: Volume, file: seq<byte>, pos: nat, entries: seq<(nat, seq<byte>)>,
                      hit: bool, bytesWritten: nat)
    requires InFile(c, v, file, pos, entries, hit, bytesWritten)
    ensures pos == |file| == QuickOpenPos(c, v) && ValidVolume(v)
    ensures Wanted(c, v) == (c.quickOpen && (!c.quickOpenAuto || hit))
    ensures Distances(entries, pos).Some?
    ensures !Wanted(c, v) ==> QuickOpenPart(c, v) == [] && file + [] == file
    ensures Wanted(c, v) ==>
              QuickOpenPart(c, v)
              == Record(c, QUICK_OPEN_NAME, [], QuickOpen.EncodePayload(c.crc, Distances(entries, pos).value))
  {
    hide Prologue; hide Record; hide Bytes; hide Distances; hide QuickOpen.EncodePayload; hide Catalog;
    HoldsWhole(Prologue(c, v.number), Bytes(v.items), []);
    assert file + [] == file;
    CatalogInPlace(c, v, file);
  }

  /** A file ready for the patch of its main header. */
  lemma BeforePatch(c: Config, v: Volume, file: seq<byte>, pos: nat, entries: seq<(nat, seq<byte>)>,
                    hit: bool, bytesWritten: nat, start: Option<nat>, qoField: Option<nat>, rrField: Option<nat>)
    requires InFile(c, v, file, pos, entries, hit, bytesWritten) && FieldsKnown(c, v.number, start, qoField, rrField)
    ensures ValidConfig(c) && (v.number.Some? ==> v.number.value < U64)
    ensures var rest := Bytes(v.items) + QuickOpenPart(c, v);
            && file + QuickOpenPart(c, v) == Prologue(c, v.number) + rest
            && |file + QuickOpenPart(c, v)| == RecoveryPos(c, v)
            && SIGNATURE + (FinalHeader(c, v) + rest) == Protected(c, v)
            && (!c.quickOpen && c.recovery.None? ==> Prologue(c, v.number) + rest == Protected(c, v))
    ensures var b := Locator.BuildMainHeader(c.crc, ShapeOf(c, v.number));
            c.quickOpen || c.recovery.Some? ==> start == Some(|SIGNATURE|) && b.qoField == qoField && b.rrField == rrField
  {
    hide Prologue; hide Bytes; hide QuickOpenPart; hide Locator.BuildMainHeader; hide FinalHeader;
    PlainHeader(c, v);
    var rest := Bytes(v.items) + QuickOpenPart(c, v);
    assert (SIGNATURE + FinalHeader(c, v)) + rest == SIGNATURE + (FinalHeader(c, v) + rest);
  }

  lemma PlainHeader(c: Config, v: Volume)
    ensures !c.quickOpen && c.recovery.None? ==> Prologue(c, v.number) == SIGNATURE + FinalHeader(c, v)
  {
    hide Locator.MainHeader;
  }

  /** The parts of a finished file, in the order they are appended. */
  lemma FinishedSplits(c: Config, v: Volume, nextVolume: bool)
    ensures Finished(c, v, nextVolume)
         == (if c.recovery.Some? then Protected(c, v) + RecoveryPart(c, Protected(c, v)) else Protected(c, v))
            + EndBlock(c.crc, nextVolume)
  {
    hide Protected; hide EndBlock; hide Record;
    var p, e := Protected(c, v), EndBlock(c.crc, nextVolume);
    assert p + RecoveryPart(c, p) + e == p + (RecoveryPart(c, p) + e);
    assert [] + e == e;
  }

  lemma InSetNext(c: Config, done: seq<Volume>, v: Volume, staged: seq<seq<byte>>, pending: Pending,
                  volumePaths: nat, currentVolume: nat)
    requires InSet(c, done, staged, pending, volumePaths, currentVolume)
    requires v.number == NumberOf(|done|) && ValidVolume(v)
    ensures pending == Volumes ==> currentVolume == |done| + 1 && Some(currentVolume) == NumberOf(|done + [v]|)
    ensures pending == Volumes ==> InSet(c, done + [v], staged + [Finished(c, v, true)], pending, volumePaths + 1, currentVolume + 1)
  {
    hide Finished;
  }

  lemma NothingStaged(c: Config, currentVolume: nat)
    requires c.multi ==> currentVolume == 1
    ensures InSet(c, [], [], if c.multi then Volumes else Single, 1, currentVolume)
  {
  }

  lemma InFileStart(c: Config, number: Option<nat>, bytesWritten: nat)
    requires ValidConfig(c) && (number.Some? ==> number.value < U64)
    requires c.multi ==> bytesWritten == |Prologue(c, number)|
    ensures InFile(c, Volume(number, [], []), Prologue(c, number), |Prologue(c, number)|, [], false, bytesWritten)
  {
    hide Prologue;
    assert Prologue(c, number) + Bytes([]) == Prologue(c, number);
  }

  lemma EarnedNext(runs: seq<nat>, run: nat)
    ensures Earned(runs + [run]) <==> Earned(runs) || run > AUTO_THRESHOLD
  {
    if Earned(runs) {
      var r :| r in runs && r > AUTO_THRESHOLD;
      assert r in runs + [run];
    }
    assert run in runs + [run];
  }

  lemma InFileMarked(c: Config, v: Volume, file: seq<byte>, pos: nat, entries: seq<(nat, seq<byte>)>,
                     hit: bool, bytesWritten: nat, run: nat)
    requires InFile(c, v, file, pos, entries, hit, bytesWritten)
    ensures InFile(c, v.(runs := v.runs + [run]), file, pos, entries,
                   hit || (c.quickOpenAuto && run > AUTO_THRESHOLD), bytesWritten)
  {
    EarnedNext(v.runs, run);
    hide Earned; hide Prologue; hide Bytes; hide Cached;
  }

  lemma InFileNext(c: Config, v: Volume, item: Item, file: seq<byte>, pos: nat, entries: seq<(nat, seq<byte>)>,
                   hit: bool, bytesWritten: nat)
    requires InFile(c, v, file, pos, entries, hit, bytesWritten) && item.header != []
    ensures pos == |file|
    ensures var after := file + item.header + item.data;
            InFile(c, v.(items := v.items + [item]), after, |after|,
                   entries + (if item.cached && c.quickOpen then [(pos, item.header)] else []),
                   hit, bytesWritten + |item.header| + |item.data|)
  {
    ItemAppended(c, v, item);
    hide Prologue; hide Bytes; hide Cached;
  }

  /** Volumes are numbered from the second on. */
  function NumberOf(index: nat): Option<nat> {
    if index == 0 then None else Some(index)
  }

  function Joined(found: seq<QuickOpen.Entry>, rest: Option<seq<QuickOpen.Entry>>): Option<seq<QuickOpen.Entry>> {
    match rest
    case Some(r) => Some(found + r)
    case None => None
  }

  lemma FoundNothing(crc: Checksum, entries: seq<(nat, seq<byte>)>, start: nat)
    ensures QuickOpen.EncodePayload(crc, []) == []
    ensures Joined([], Distances(entries[0..], start)) == Distances(entries, start)
  {
    assert entries[0..] == entries;
    if Distances(entries, start).Some? {
      assert [] + Distances(entries, start).value == Distances(entries, start).value;
    }
  }

  lemma FoundNext(crc: Checksum, entries: seq<(nat, seq<byte>)>, i: nat, start: nat, found: seq<QuickOpen.Entry>)
    requires i < |entries|
    ensures entries[i].0 > start ==> Joined(found, Distances(entries[i..], start)) == None
    ensures entries[i].0 <= start ==>
              var e := QuickOpen.Entry(start - entries[i].0, entries[i].1);
              && Joined(found, Distances(entries[i..], start)) == Joined(found + [e], Distances(entries[i + 1..], start))
              && QuickOpen.EncodePayload(crc, found + [e])
                 == QuickOpen.EncodePayload(crc, found) + QuickOpen.EncodeEntry(crc, e)
  {
    hide QuickOpen.EncodeEntry;
    assert entries[i..][1..] == entries[i + 1..];
    if entries[i].0 <= start {
      var e := QuickOpen.Entry(start - entries[i].0, entries[i].1);
      QuickOpen.PayloadAppend(crc, found, [e]);
      assert [e][1..] == [];
      var rest := Distances(entries[i + 1..], start);
      if rest.Some? {
        assert found + ([e] + rest.value) == found + [e] + rest.value;
      }
    }
  }

  lemma FoundAll(entries: seq<(nat, seq<byte>)>, start: nat, found: seq<QuickOpen.Entry>)
    requires Joined(found, Distances(entries[|entries|..], start)) == Distances(entries, start)
    ensures Distances(entries, start) == Some(found)
  {
    assert entries[|entries|..] == [];
    assert found + [] == found;
  }

  lemma ItemAppended(c: Config, v: Volume, item: Item)
    ensures var after := v.(items := v.items + [item]);
            && Bytes(after.items) == Bytes(v.items) + item.header + item.data
            && Prologue(c, v.number) + Bytes(v.items) + item.header + item.data
               == Prologue(c, v.number) + Bytes(after.items)
            && Catalog(c, after)
               == Catalog(c, v) + (if item.cached && c.quickOpen
                                   then [(|Prologue(c, v.number)| + |Bytes(v.items)|, item.header)] else [])
            && (ValidVolume(v) && item.header != [] ==> ValidVolume(after))
  {
    hide Prologue; hide Bytes; hide Cached;
    BytesAppend(v.items, item);
    CachedAppend(v.items, item, |Prologue(c, v.number)|);
  }

  /** What the patch reads back is the header that was written, and what it writes has
      the same length. */
  lemma HeaderReadBack(c: Config, number: Option<nat>, rest: seq<byte>, qo: Option<nat>, rr: Option<nat>)
    requires ValidConfig(c) && (number.Some? ==> number.value < U64)
    ensures var b := Locator.BuildMainHeader(c.crc, ShapeOf(c, number));
            var file, start := Prologue(c, number) + rest, |SIGNATURE|;
            var patched := Locator.MainHeader(c.crc, ShapeOf(c, number),
                             Locator.StoredIn(c.quickOpen, qo, BASE, c.width),
                             Locator.StoredIn(c.recovery.Some?, rr, BASE, c.width));
            && start + |b.header| <= |file|
            && |b.header| >= 5 && Decode(file[start..start + 5], 4) == Decoded(|b.header| - 5, 1)
            && file[start..start + |b.header|] == b.header
            && Locator.Patched(c.crc, b.header, qo, rr, b, BASE) == Some(patched)
            && |patched| == |b.header|
            && Overwrite(file, start, patched) == SIGNATURE + (patched + rest)
  {
    hide Decode; hide Locator.Patched; hide Locator.MainHeader; hide Locator.StoredIn; hide Overwrite; hide ShapeOf;
    hide ValidConfig; hide Locator.BuildMainHeader;
    ShapeIsValid(c, number);
    var s := ShapeOf(c, number);
    var b := Locator.BuildMainHeader(c.crc, s);
    Locator.PatchedIsBuilt(c.crc, s, qo, rr, BASE);
    HeaderSizeByte(c, number);
    SizeReadBack(SIGNATURE, b.header, rest);
    OverwriteMiddle(SIGNATURE, b.header, rest, Locator.Patched(c.crc, b.header, qo, rr, b, BASE).value);
    Regrouped(SIGNATURE, Locator.Patched(c.crc, b.header, qo, rr, b, BASE).value, rest);
  }

  lemma ShapeIsValid(c: Config, number: Option<nat>)
    requires ValidConfig(c) && (number.Some? ==> number.value < U64)
    ensures var s := ShapeOf(c, number);
            Locator.Valid(s) && s.quickOpen == c.quickOpen && s.recovery == c.recovery.Some? && s.width == c.width
  {
  }

  /** A header in a file, with its one-byte size. */
  lemma SizeReadBack(a: seq<byte>, header: seq<byte>, rest: seq<byte>)
    requires |header| >= 5 && header[4] == |header| - 5 < 128
    ensures var file, start := a + header + rest, |a|;
            && start + |header| <= |file| && file[start..start + |header|] == header
            && Decode(file[start..start + 5], 4) == Decoded(|header| - 5, 1)
  {
    hide Decode;
    var file := a + header + rest;
    var five := file[|a|..|a| + 5];
    assert five == header[..5];
    SmallBytes(five, 4);
  }

  lemma Regrouped(a: seq<byte>, b: seq<byte>, c: seq<byte>)
    ensures a + b + c == a + (b + c)
  {
  }

  /** The size of a fresh main header takes one byte. */
  lemma HeaderSizeByte(c: Config, number: Option<nat>)
    requires ValidConfig(c) && (number.Some? ==> number.value < U64)
    ensures var h := Locator.BuildMainHeader(c.crc, ShapeOf(c, number)).header;
            |h| >= 5 && h[4] == |h| - 5 < 128
  {
    hide MainBody; hide Encoded; hide Locator.Extra;
    var s := ShapeOf(c, number);
    var h := ArchiveHeader(s.flags, Locator.Extra(s, 0, 0), s.number);
    Locator.SmallHeader(s, 0, 0);
    Small(|MainBody(h)|);
  }
}
