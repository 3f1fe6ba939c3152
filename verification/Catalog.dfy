/** Catalog identities: tokens that name catalogs and IDs that name members
    (reader.rs, engine.rs), and edit plans that renew the token (editor.rs,
    transaction/edit.rs). */
module Catalog {
  import opened Options

  const U64_MAX: nat := 0xFFFF_FFFF_FFFF_FFFF

  datatype Error = StaleEntryId | IdsExhausted | InvalidOption | Unsupported | ArchiveLocked
    | NothingToEdit | MemberNotFound | AmbiguousMember(count: nat) | Io

  datatype Result<T> = Ok(value: T) | Err(error: Error)

  // ---------------------------------------------------------------- tokens

  /** The counter after one more token; 0 once all are handed out. */
  function NextAfter(next: nat): nat {
    if next == 0 || next >= U64_MAX then 0 else next + 1
  }

  /** The first token not handed out yet. */
  function Frontier(next: nat): nat {
    if next == 0 then U64_MAX + 1 else next
  }

  class TokenSource {
    var next: nat
    ghost var issued: seq<nat>

    /** Every token below the frontier was handed out exactly once, in order. */
    ghost predicate Valid()
      reads this
    {
      && next <= U64_MAX
      && |issued| == Frontier(next) - 1
      && forall k :: 0 <= k < |issued| ==> issued[k] == k + 1
    }

    constructor ()
      ensures Valid() && next == 1 && issued == []
    {
      next, issued := 1, [];
    }

    method Allocate() returns (r: Result<nat>)
      requires Valid()
      modifies this
      ensures Valid() && next == NextAfter(old(next)) && (next == 0 <==> old(next) == 0 || |issued| == 0xFFFF_FFFF_FFFF_FFFF)
      ensures old(next) == 0 ==> r == Err(IdsExhausted) && issued == old(issued)
      ensures old(next) != 0 ==> r == Ok(old(next)) && issued == old(issued) + [r.value] && r.value !in old(issued)
    {
      if next == 0 {
        return Err(IdsExhausted);
      }
      r := Ok(next);
      issued := issued + [next];
      next := if next == U64_MAX then 0 else next + 1;
    }
  }

  // ---------------------------------------------------------------- member IDs

  /** A member: its stored name and where its first chunk's payload starts, if it
      has a chunk at all. */
  datatype Entry = Entry(name: string, dataOffset: Option<nat>)

  datatype EntryId = EntryId(token: nat, index: nat, dataOffset: Option<nat>)

  function Mint(token: nat, index: nat, entry: Entry): EntryId {
    EntryId(token, index, entry.dataOffset)
  }

  /** The first entry at this offset. */
  function Position(entries: seq<Entry>, dataOffset: Option<nat>): Option<nat> {
    if entries == [] then None
    else if entries[0].dataOffset == dataOffset then Some(0)
    else match Position(entries[1..], dataOffset)
         case Some(p) => Some(p + 1)
         case None => None
  }

  function Resolve(id: EntryId, entries: seq<Entry>, token: nat): Result<nat> {
    if id.token != token then Err(StaleEntryId)
    else if id.index < |entries| && entries[id.index].dataOffset == id.dataOffset then Ok(id.index)
    else match Position(entries, id.dataOffset)
         case Some(p) => Ok(p)
         case None => Err(StaleEntryId)
  }

  predicate DistinctOffsets(entries: seq<Entry>) {
    forall i, j :: 0 <= i < j < |entries| ==> entries[i].dataOffset != entries[j].dataOffset
  }

  lemma {:induction false} PositionFinds(entries: seq<Entry>, dataOffset: Option<nat>)
    ensures match Position(entries, dataOffset)
            case Some(p) => p < |entries| && entries[p].dataOffset == dataOffset
            case None => forall e :: e in entries ==> e.dataOffset != dataOffset
  {
    if entries != [] {
      PositionFinds(entries[1..], dataOffset);
    }
  }

  /** An ID resolves to a member at its own offset, or is stale: exactly when it
      belongs to another catalog or no member sits at its offset. */
  lemma ResolveExactly(id: EntryId, entries: seq<Entry>, token: nat)
    ensures match Resolve(id, entries, token)
            case Ok(k) => id.token == token && k < |entries| && entries[k].dataOffset == id.dataOffset
            case Err(e) => e == StaleEntryId
                           && (id.token != token || forall m :: m in entries ==> m.dataOffset != id.dataOffset)
  {
    PositionFinds(entries, id.dataOffset);
  }

  /** A rescan may reorder members: with distinct offsets an ID still resolves to the
      one member it was minted for, or is stale when that member is gone. */
  lemma ResolveAfterReorder(token: nat, before: seq<Entry>, index: nat, after: seq<Entry>, k: nat)
    requires index < |before| && k < |after| && DistinctOffsets(after)
    ensures Resolve(Mint(token, index, before[index]), after, token) == Ok(k)
       <==> after[k].dataOffset == before[index].dataOffset
  {
    ResolveExactly(Mint(token, index, before[index]), after, token);
  }

  // ---------------------------------------------------------------- naming a member

  function CountNamed(entries: seq<Entry>, name: string): nat {
    if entries == [] then 0 else (if entries[0].name == name then 1 else 0) + CountNamed(entries[1..], name)
  }

  function FirstNamed(entries: seq<Entry>, name: string): Option<nat> {
    if entries == [] then None
    else if entries[0].name == name then Some(0)
    else match FirstNamed(entries[1..], name)
         case Some(p) => Some(p + 1)
         case None => None
  }

  /** The ID of the only member with this name. */
  function UniqueEntry(entries: seq<Entry>, token: nat, name: string): Result<EntryId> {
    match FirstNamed(entries, name)
    case None => Err(MemberNotFound)
    case Some(p) =>
      FirstNamedIs(entries, name);
      var additional := CountNamed(entries[p + 1..], name);
      if additional != 0 then Err(AmbiguousMember(additional + 1)) else Ok(Mint(token, p, entries[p]))
  }

  lemma {:induction false} FirstNamedIs(entries: seq<Entry>, name: string)
    ensures match FirstNamed(entries, name)
            case Some(p) => p < |entries| && entries[p].name == name
                            && CountNamed(entries, name) == 1 + CountNamed(entries[p + 1..], name)
            case None => CountNamed(entries, name) == 0
  {
    if entries != [] && entries[0].name != name {
      FirstNamedIs(entries[1..], name);
      var p := FirstNamed(entries[1..], name);
      if p.Some? {
        assert entries[1..][p.value + 1..] == entries[p.value + 2..];
      }
    }
  }

  lemma {:induction false} NoneNamed(entries: seq<Entry>, name: string)
    requires CountNamed(entries, name) == 0
    ensures forall e :: e in entries ==> e.name != name
  {
    if entries != [] {
      NoneNamed(entries[1..], name);
    }
  }

  lemma {:induction false} SomeNamed(entries: seq<Entry>, name: string, k: nat)
    requires k < |entries| && entries[k].name == name
    ensures CountNamed(entries, name) > 0
  {
    if k > 0 {
      SomeNamed(entries[1..], name, k - 1);
    }
  }

  /** A name is taken for a member exactly when one member bears it, and the ID
      given resolves back to that member. */
  lemma UniqueEntryIsUnique(entries: seq<Entry>, token: nat, name: string)
    ensures match UniqueEntry(entries, token, name)
            case Ok(id) =>
              && CountNamed(entries, name) == 1
              && (exists k :: 0 <= k < |entries| && entries[k].name == name
                   && Resolve(id, entries, token) == Ok(k)
                   && forall j :: 0 <= j < |entries| && entries[j].name == name ==> j == k)
            case Err(e) =>
              if CountNamed(entries, name) == 0 then e == MemberNotFound
              else CountNamed(entries, name) > 1 && e == AmbiguousMember(CountNamed(entries, name))
  {
    FirstNamedIs(entries, name);
    var found := FirstNamed(entries, name);
    if found.Some? && CountNamed(entries, name) == 1 {
      var p := found.value;
      assert Resolve(Mint(token, p, entries[p]), entries, token) == Ok(p);
      forall j | 0 <= j < |entries| && entries[j].name == name ensures j == p {
        if j > p {
          SomeNamed(entries[p + 1..], name, j - p - 1);
        } else if j < p {
          FirstIsFirst(entries, name, j);
        }
      }
    }
  }

  lemma {:induction false} FirstIsFirst(entries: seq<Entry>, name: string, j: nat)
    requires j < |entries| && entries[j].name == name
    ensures FirstNamed(entries, name).Some? && FirstNamed(entries, name).value <= j
  {
    if j > 0 && entries[0].name != name {
      FirstIsFirst(entries[1..], name, j - 1);
    }
  }

  // ---------------------------------------------------------------- edit plans

  datatype EditOp =
    | Delete(id: EntryId)
    | Rename(id: EntryId, name: string)
    | SetFileVersion(id: EntryId, version: nat)
    | SetComment(text: string)
    | SetMemberComment(id: EntryId, text: string)
    | SetRecovery(percent: nat)
    | SetRecoverySectors(count: nat)

  datatype Edits = Edits(deletes: seq<nat>, renames: seq<(nat, string)>, versions: seq<(nat, nat)>,
                         comment: Option<string>, recovery: Option<nat>)

  const NO_EDITS := Edits([], [], [], None, None)

  /** What an archive keeps about its catalog. */
  datatype State = State(entries: seq<Entry>, token: nat, quickOpen: bool)

  /** What the files on disk decide about an edit: the parsed flags, whether the staged
      rewrite or the removal commits, and what the scan of the new archive yields. */
  datatype Disk = Disk(incomplete: bool, volumeSet: bool, locked: bool,
                       write: Option<Error>, scan: Result<seq<Entry>>)

  /** One operation of a plan, with its member resolved. */
  function Gather(op: EditOp, s: State, edits: Edits): Result<Edits> {
    match op
    case Delete(id) =>
      (match Resolve(id, s.entries, s.token)
       case Ok(k) => Ok(edits.(deletes := edits.deletes + [k]))
       case Err(e) => Err(e))
    case Rename(id, name) =>
      (match Resolve(id, s.entries, s.token)
       case Ok(k) => Ok(edits.(renames := edits.renames + [(k, name)]))
       case Err(e) => Err(e))
    case SetFileVersion(id, version) =>
      (match Resolve(id, s.entries, s.token)
       case Ok(k) => Ok(edits.(versions := edits.versions + [(k, version)]))
       case Err(e) => Err(e))
    case SetComment(text) =>
      if edits.comment.Some? then Err(InvalidOption) else Ok(edits.(comment := Some(text)))
    case SetMemberComment(_, _) => Err(Unsupported)
    case SetRecovery(percent) =>
      if edits.recovery.Some? || percent == 0 then Err(InvalidOption)
      else Ok(edits.(recovery := Some(percent)))
    case SetRecoverySectors(_) => Err(InvalidOption)
  }

  function GatherAll(ops: seq<EditOp>, s: State, edits: Edits): Result<Edits> {
    if ops == [] then Ok(edits)
    else match Gather(ops[0], s, edits)
         case Ok(next) => GatherAll(ops[1..], s, next)
         case Err(e) => Err(e)
  }

  function IndexSet(indexes: seq<nat>): (r: set<nat>) {
    set k | k in indexes
  }

  predicate Changes(edits: Edits) {
    edits.renames != [] || edits.versions != [] || edits.comment.Some? || edits.recovery.Some?
  }

  predicate DeletesAll(edits: Edits, s: State) {
    |IndexSet(edits.deletes)| == |s.entries|
  }

  /** The checks made before any file is written. */
  function Refusal(edits: Edits, s: State, disk: Disk): Option<Error> {
    if disk.incomplete then Some(Unsupported)
    else if edits.recovery.Some? && edits.recovery.value > 100 then Some(InvalidOption)
    else if disk.volumeSet && edits.comment.Some? then Some(Unsupported)
    else if Changes(edits) && disk.locked then Some(ArchiveLocked)
    else if exists r :: r in edits.renames && r.0 in edits.deletes then Some(InvalidOption)
    else if exists v :: v in edits.versions && v.0 in edits.deletes then Some(InvalidOption)
    else if edits.deletes == [] && !Changes(edits) then Some(NothingToEdit)
    else if DeletesAll(edits, s) then
      if edits.recovery.Some? || edits.comment.Some? then Some(InvalidOption)
      else if disk.locked then Some(ArchiveLocked)
      else disk.write
    else disk.write
  }

  /** A fresh token for the catalog, when one is left. */
  function Renewed(s: State, next: nat): (State, nat, Result<()>) {
    if next == 0 then (s, 0, Err(IdsExhausted)) else (s.(token := next), NextAfter(next), Ok(()))
  }

  /** Opening scans first and renews the token last. */
  function Scanned(s: State, next: nat, scan: Result<seq<Entry>>, quickOpen: bool): (State, nat, Result<()>) {
    match scan
    case Err(e) => (s, next, Err(e))
    case Ok(entries) => Renewed(s.(entries := entries, quickOpen := quickOpen), next)
  }

  /** The committed part of an edit, up to the summary. */
  function Committed(s: State, next: nat, edits: Edits, disk: Disk): (State, nat, Result<()>) {
    if DeletesAll(edits, s) then (s.(entries := []), next, Ok(())) else Scanned(s, next, disk.scan, false)
  }

  /** A whole edit plan. */
  function Applied(s: State, next: nat, ops: seq<EditOp>, disk: Disk): (State, nat, Result<()>) {
    match GatherAll(ops, s, NO_EDITS)
    case Err(e) => (s, next, Err(e))
    case Ok(edits) =>
      match Refusal(edits, s, disk)
      case Some(e) => (s, next, Err(e))
      case None =>
        var (s1, next1, r) := Committed(s, next, edits, disk);
        if r.Err? then (s1, next1, r) else Renewed(s1, next1)
  }

  /** A full scan replaces a quick-open catalog and keeps its token. */
  function Rescanned(s: State, scan: Result<seq<Entry>>): State {
    if s.quickOpen && scan.Ok? then s.(entries := scan.value, quickOpen := false) else s
  }

  class Archive {
    var entries: seq<Entry>
    var token: nat
    var quickOpen: bool

    function Abstract(): State
      reads this
    {
      State(entries, token, quickOpen)
    }

    constructor ()
      ensures Abstract() == State([], 0, false)
    {
      entries, token, quickOpen := [], 0, false;
    }

    method ResetToken(source: TokenSource) returns (r: Result<()>)
      requires source.Valid()
      modifies this`token, source
      ensures source.Valid() && (Abstract(), source.next, r) == Renewed(old(Abstract()), old(source.next))
    {
      var token := source.Allocate();
      match token {
        case Err(e) => r := Err(e);
        case Ok(value) =>
          this.token := value;
          r := Ok(());
      }
    }

    method OpenRead(source: TokenSource, scan: Result<seq<Entry>>, quick: bool) returns (r: Result<()>)
      requires source.Valid()
      modifies this, source
      ensures source.Valid() && (Abstract(), source.next, r) == Scanned(old(Abstract()), old(source.next), scan, quick)
      ensures if scan.Ok? then entries == scan.value && quickOpen == quick && (r.Ok? ==> token == old(source.next))
              else r == Err(scan.error) && Abstract() == old(Abstract()) && source.next == old(source.next)
    {
      match scan {
        case Err(e) => r := Err(e);
        case Ok(found) =>
          entries := found;
          quickOpen := quick;
          r := ResetToken(source);
      }
    }

    method EnsureFullCatalog(scan: Result<seq<Entry>>) returns (r: Result<()>)
      modifies this
      ensures Abstract() == Rescanned(old(Abstract()), scan)
      ensures token == old(token)
      ensures if old(quickOpen) && scan.Ok? then entries == scan.value && !quickOpen
              else entries == old(entries) && quickOpen == old(quickOpen)
      ensures r.Err? <==> old(quickOpen) && scan.Err?
    {
      if !quickOpen {
        return Ok(());
      }
      match scan {
        case Err(e) => r := Err(e);
        case Ok(found) =>
          entries := found;
          quickOpen := false;
          r := Ok(());
      }
    }

    method Apply(source: TokenSource, ops: seq<EditOp>, disk: Disk) returns (r: Result<()>)
      requires source.Valid()
      modifies this, source
      ensures source.Valid()
      ensures (Abstract(), source.next, r) == Applied(old(Abstract()), old(source.next), ops, disk)
    {
      var edits := NO_EDITS;
      var i := 0;
      assert ops[0..] == ops;
      while i < |ops|
        invariant 0 <= i <= |ops| && Abstract() == old(Abstract())
        invariant source.Valid() && source.next == old(source.next)
        invariant GatherAll(ops[i..], Abstract(), edits) == GatherAll(ops, Abstract(), NO_EDITS)
      {
        assert ops[i..][1..] == ops[i + 1..];
        match Gather(ops[i], Abstract(), edits) {
          case Err(e) => return Err(e);
          case Ok(next) => edits := next;
        }
        i := i + 1;
      }
      var refusal := Refusal(edits, Abstract(), disk);
      if refusal.Some? {
        return Err(refusal.value);
      }
      if DeletesAll(edits, Abstract()) {
        entries := [];
      } else {
        var outcome := OpenRead(source, disk.scan, false);
        if outcome.Err? {
          return outcome;
        }
      }
      r := ResetToken(source);
    }
  }

  // ---------------------------------------------------------------- what one edit does

  /** Resolved operations stay inside the catalog. */
  ghost predicate InCatalog(edits: Edits, s: State) {
    && (forall k :: k in edits.deletes ==> k < |s.entries|)
    && (forall k :: k in edits.renames ==> k.0 < |s.entries|)
    && (forall k :: k in edits.versions ==> k.0 < |s.entries|)
  }

  lemma {:induction false} GatheredInCatalog(ops: seq<EditOp>, s: State, edits: Edits)
    requires InCatalog(edits, s)
    ensures GatherAll(ops, s, edits).Ok? ==> InCatalog(GatherAll(ops, s, edits).value, s)
    ensures GatherAll(ops, s, edits).Ok? ==>
              forall op :: op in ops && (op.Delete? || op.Rename? || op.SetFileVersion?) ==>
                Resolve(op.id, s.entries, s.token).Ok?
  {
    if ops != [] {
      if ops[0].Delete? || ops[0].Rename? || ops[0].SetFileVersion? {
        ResolveExactly(ops[0].id, s.entries, s.token);
      }
      var next := Gather(ops[0], s, edits);
      if next.Ok? {
        GatheredInCatalog(ops[1..], s, next.value);
      }
    }
  }

  /** An edit that succeeds went through the disk, leaves a token never used before,
      and found every member it names; one that fails before the disk changes nothing.
      The catalog changes without a fresh token exactly when the tokens are exhausted. */
  lemma EditRenewsToken(s: State, next: nat, ops: seq<EditOp>, disk: Disk)
    requires s.token < Frontier(next) && next <= U64_MAX
    ensures var (s', next', r) := Applied(s, next, ops, disk);
            && (r.Ok? ==> Frontier(next) <= s'.token < Frontier(next') && disk.write.None?)
            && (r.Ok? ==> forall op :: op in ops && (op.Delete? || op.Rename? || op.SetFileVersion?) ==>
                            Resolve(op.id, s.entries, s.token).Ok?)
            && (disk.write.Some? ==> s' == s && next' == next && r.Err?)
            && (s'.entries != s.entries ==> (s'.token != s.token <==> next != 0))
            && (s'.token == s.token || Frontier(next) <= s'.token)
            && (r.Ok? ==> next != 0)
  {
    GatheredInCatalog(ops, s, NO_EDITS);
  }

  /** Once tokens are exhausted a rewrite still happens, fails afterwards, and an old
      ID then resolves into the new catalog: here to the member that moved to the
      front when the first one was deleted. */
  lemma ExhaustedEditMisresolves()
    ensures var a, b := Entry("a", Some(60)), Entry("b", Some(160));
            var moved := Entry("b", Some(60));
            var s, id := State([a, b], 7, false), Mint(7, 0, a);
            var (s', _, r) := Applied(s, 0, [Delete(id)], Disk(false, false, false, None, Ok([moved])));
            r == Err(IdsExhausted) && Resolve(id, s'.entries, s'.token) == Ok(0) && s'.entries[0] == moved
  {
    var a, b := Entry("a", Some(60)), Entry("b", Some(160));
    var s, id := State([a, b], 7, false), Mint(7, 0, a);
    var edits := NO_EDITS.(deletes := [0]);
    assert Resolve(id, s.entries, s.token) == Ok(0);
    assert NO_EDITS.deletes + [0] == [0];
    assert GatherAll([], s, edits) == Ok(edits);
    assert [Delete(id)][1..] == [];
    assert GatherAll([Delete(id)], s, NO_EDITS) == Ok(edits);
    assert IndexSet([0]) == {0};
  }

  // ---------------------------------------------------------------- which plans are carried out

  /** An operation that can be carried out on its own. */
  predicate Fine(op: EditOp, s: State) {
    match op
    case Delete(id) => Resolve(id, s.entries, s.token).Ok?
    case Rename(id, _) => Resolve(id, s.entries, s.token).Ok?
    case SetFileVersion(id, _) => Resolve(id, s.entries, s.token).Ok?
    case SetComment(_) => true
    case SetMemberComment(_, _) => false
    case SetRecovery(percent) => percent > 0
    case SetRecoverySectors(_) => false
  }

  ghost predicate Comments(ops: seq<EditOp>) {
    exists op :: op in ops && op.SetComment?
  }

  ghost predicate Protects(ops: seq<EditOp>) {
    exists op :: op in ops && op.SetRecovery?
  }

  /** Some operation of the plan deletes member `k`. */
  ghost predicate Deletes(ops: seq<EditOp>, s: State, k: nat) {
    exists op :: op in ops && op.Delete? && Resolve(op.id, s.entries, s.token) == Ok(k)
  }

  /** Some operation of the plan renames or versions member `k`. */
  ghost predicate Alters(ops: seq<EditOp>, s: State, k: nat) {
    exists op :: op in ops && (op.Rename? || op.SetFileVersion?) && Resolve(op.id, s.entries, s.token) == Ok(k)
  }

  /** Every operation is fine, and there is at most one comment and one recovery change. */
  ghost predicate WellPlanned(ops: seq<EditOp>, s: State) {
    && (forall op :: op in ops ==> Fine(op, s))
    && (forall i, j :: 0 <= i < j < |ops| ==>
          !(ops[i].SetComment? && ops[j].SetComment?) && !(ops[i].SetRecovery? && ops[j].SetRecovery?))
  }

  /** What is gathered, in terms of the operations. */
  ghost predicate Gathered(ops: seq<EditOp>, s: State, before: Edits, after: Edits) {
    && (forall k :: k in after.deletes <==> k in before.deletes || Deletes(ops, s, k))
    && (forall k :: Touched(after, k) <==> Touched(before, k) || Alters(ops, s, k))
    && (after.comment.Some? <==> before.comment.Some? || Comments(ops))
    && (after.recovery.Some? <==> before.recovery.Some? || Protects(ops))
    && (after.recovery.Some? ==>
          after.recovery == before.recovery || exists op :: op in ops && op == SetRecovery(after.recovery.value))
    && (forall op :: op in ops && op.SetRecovery? ==> after.recovery == Some(op.percent))
    && (before.recovery.Some? ==> after.recovery == before.recovery)
  }

  ghost predicate Touched(edits: Edits, k: nat) {
    (exists r :: r in edits.renames && r.0 == k) || exists v :: v in edits.versions && v.0 == k
  }

  lemma WellPlannedNext(ops: seq<EditOp>, s: State)
    requires ops != []
    ensures WellPlanned(ops, s) <==>
              Fine(ops[0], s) && WellPlanned(ops[1..], s)
              && !(ops[0].SetComment? && Comments(ops[1..])) && !(ops[0].SetRecovery? && Protects(ops[1..]))
  {
    hide Fine;
    var rest := ops[1..];
    forall i | 0 <= i < |rest| ensures rest[i] == ops[i + 1] && rest[i] in ops && ops[i + 1] in rest {
    }
    if WellPlanned(ops, s) {
      forall i, j | 0 <= i < j < |rest|
        ensures !(rest[i].SetComment? && rest[j].SetComment?) && !(rest[i].SetRecovery? && rest[j].SetRecovery?)
      {
        assert rest[i] == ops[i + 1] && rest[j] == ops[j + 1];
      }
      forall op | op in rest ensures !(ops[0].SetComment? && op.SetComment?) && !(ops[0].SetRecovery? && op.SetRecovery?) {
        var i :| 0 <= i < |rest| && rest[i] == op;
        assert op == ops[i + 1];
      }
    }
    if Fine(ops[0], s) && WellPlanned(rest, s) && !(ops[0].SetComment? && Comments(rest))
       && !(ops[0].SetRecovery? && Protects(rest)) {
      forall op | op in ops ensures Fine(op, s) {
        assert op == ops[0] || op in rest;
      }
      forall i, j | 0 <= i < j < |ops|
        ensures !(ops[i].SetComment? && ops[j].SetComment?) && !(ops[i].SetRecovery? && ops[j].SetRecovery?)
      {
        assert ops[j] == rest[j - 1] && ops[j] in rest;
        if i > 0 {
          assert ops[i] == rest[i - 1];
        }
      }
    }
  }

  lemma GatherIs(op: EditOp, s: State, edits: Edits)
    ensures Gather(op, s, edits).Ok? <==>
              Fine(op, s) && !(op.SetComment? && edits.comment.Some?) && !(op.SetRecovery? && edits.recovery.Some?)
    ensures Gather(op, s, edits).Ok? ==> Gathered([op], s, edits, Gather(op, s, edits).value)
  {
    hide Resolve;
    if Gather(op, s, edits).Ok? {
      var after := Gather(op, s, edits).value;
      assert op in [op];
      forall k ensures Touched(after, k) <==> Touched(edits, k) || Alters([op], s, k) {
        GatherTouches(op, s, edits, k);
      }
    }
  }

  lemma GatherTouches(op: EditOp, s: State, edits: Edits, k: nat)
    requires Gather(op, s, edits).Ok?
    ensures Touched(Gather(op, s, edits).value, k) <==> Touched(edits, k) || Alters([op], s, k)
  {
    hide Resolve;
    var after := Gather(op, s, edits).value;
    assert op in [op];
    if Touched(edits, k) {
      if r :| r in edits.renames && r.0 == k {
        assert r in after.renames;
      } else {
        var v :| v in edits.versions && v.0 == k;
        assert v in after.versions;
      }
    }
    if Alters([op], s, k) {
      if op.Rename? {
        assert (k, op.name) in after.renames;
      } else {
        assert (k, op.version) in after.versions;
      }
    }
  }

  lemma {:induction false} GatheredExactly(ops: seq<EditOp>, s: State, edits: Edits)
    ensures GatherAll(ops, s, edits).Ok? <==>
              WellPlanned(ops, s) && !(edits.comment.Some? && Comments(ops)) && !(edits.recovery.Some? && Protects(ops))
    ensures GatherAll(ops, s, edits).Ok? ==> Gathered(ops, s, edits, GatherAll(ops, s, edits).value)
  {
    hide Fine; hide Gathered; hide WellPlanned; hide Comments; hide Protects;
    if ops != [] {
      WellPlannedNext(ops, s);
      GatherIs(ops[0], s, edits);
      CommentsNext(ops);
      if Gather(ops[0], s, edits).Ok? {
        var next := Gather(ops[0], s, edits).value;
        GatheredExactly(ops[1..], s, next);
        GatheredKinds(ops[0], s, edits, next);
        if GatherAll(ops[1..], s, next).Ok? {
          GatheredJoins(ops, s, edits, next, GatherAll(ops[1..], s, next).value);
        }
      }
    } else {
      NothingGathered(s, edits);
    }
  }

  lemma CommentsNext(ops: seq<EditOp>)
    requires ops != []
    ensures Comments(ops) <==> ops[0].SetComment? || Comments(ops[1..])
    ensures Protects(ops) <==> ops[0].SetRecovery? || Protects(ops[1..])
  {
    assert forall op :: op in ops <==> op == ops[0] || op in ops[1..];
  }

  lemma GatheredKinds(op: EditOp, s: State, edits: Edits, next: Edits)
    requires Gathered([op], s, edits, next)
    ensures next.comment.Some? <==> edits.comment.Some? || op.SetComment?
    ensures next.recovery.Some? <==> edits.recovery.Some? || op.SetRecovery?
  {
    assert op in [op];
  }

  lemma NothingGathered(s: State, edits: Edits)
    ensures WellPlanned([], s) && !Comments([]) && !Protects([]) && Gathered([], s, edits, edits)
  {
  }

  lemma GatheredJoins(ops: seq<EditOp>, s: State, a: Edits, b: Edits, c: Edits)
    requires ops != [] && Gathered([ops[0]], s, a, b) && Gathered(ops[1..], s, b, c)
    ensures Gathered(ops, s, a, c)
  {
    hide Resolve; hide Touched;
    assert forall op :: op in ops <==> op in [ops[0]] || op in ops[1..];
    forall k ensures Deletes(ops, s, k) <==> Deletes([ops[0]], s, k) || Deletes(ops[1..], s, k) {
    }
    forall k ensures Alters(ops, s, k) <==> Alters([ops[0]], s, k) || Alters(ops[1..], s, k) {
    }
  }

  /** The plan takes every member away. */
  ghost predicate Empties(ops: seq<EditOp>, s: State) {
    forall k: nat :: k < |s.entries| ==> Deletes(ops, s, k)
  }

  /** What the plan asks for does not contradict itself, or what the archive allows. */
  ghost predicate Permitted(ops: seq<EditOp>, s: State, disk: Disk) {
    && WellPlanned(ops, s) && ops != [] && !disk.incomplete
    && (forall op :: op in ops && op.SetRecovery? ==> op.percent <= 100)
    && (Comments(ops) ==> !disk.volumeSet)
    && (disk.locked ==> forall op :: op in ops ==> op.Delete?)
    && (forall k :: !(Deletes(ops, s, k) && Alters(ops, s, k)))
    && (Empties(ops, s) ==> !Comments(ops) && !Protects(ops) && !disk.locked)
  }

  /** Exactly which edits succeed: those permitted whose rewrite commits and, unless it
      empties the archive, can be scanned, while tokens are left. The catalog is then
      empty or the scanned one. */
  lemma EditSucceedsExactly(s: State, next: nat, ops: seq<EditOp>, disk: Disk)
    ensures var (s', _, r) := Applied(s, next, ops, disk);
            && (r.Ok? <==>
                  && Permitted(ops, s, disk) && disk.write.None? && next != 0
                  && (!Empties(ops, s) ==> disk.scan.Ok? && NextAfter(next) != 0))
            && (r.Ok? ==>
                  if Empties(ops, s) then s'.entries == [] && s'.quickOpen == s.quickOpen
                  else s'.entries == disk.scan.value && !s'.quickOpen)
  {
    hide WellPlanned; hide Comments; hide Protects; hide GatherAll; hide Refusal; hide DeletesAll; hide Permitted;
    hide Empties;
    GatheredExactly(ops, s, NO_EDITS);
    if GatherAll(ops, s, NO_EDITS).Ok? {
      var edits := GatherAll(ops, s, NO_EDITS).value;
      GatheredInCatalog(ops, s, NO_EDITS);
      DeletesAllIs(ops, s, edits);
      RefusalIs(ops, s, edits, disk);
    } else {
      assert !Permitted(ops, s, disk) by { NotPermitted(ops, s, disk); }
    }
  }

  lemma NotPermitted(ops: seq<EditOp>, s: State, disk: Disk)
    requires !WellPlanned(ops, s)
    ensures !Permitted(ops, s, disk)
  {
  }

  lemma DeletesAllIs(ops: seq<EditOp>, s: State, edits: Edits)
    requires Gathered(ops, s, NO_EDITS, edits) && InCatalog(edits, s)
    ensures DeletesAll(edits, s) <==> Empties(ops, s)
  {
    hide Deletes;
    var deleted, all := IndexSet(edits.deletes), Indexes(|s.entries|);
    AllIndexes(|s.entries|);
    assert deleted <= all;
    if |deleted| == |all| {
      SameSize(deleted, all);
      forall k: nat | k < |s.entries| ensures Deletes(ops, s, k) {
        assert k in all && k in edits.deletes;
      }
    }
    if Empties(ops, s) {
      forall k | k in all ensures k in deleted {
        assert k < |s.entries|;
        assert Deletes(ops, s, k);
        assert k in edits.deletes;
      }
      assert deleted == all;
    }
  }

  ghost function Indexes(n: nat): set<nat> {
    if n == 0 then {} else Indexes(n - 1) + {n - 1}
  }

  lemma {:induction false} AllIndexes(n: nat)
    ensures |Indexes(n)| == n
    ensures forall k: nat :: k in Indexes(n) <==> k < n
  {
    if n > 0 {
      AllIndexes(n - 1);
      assert Indexes(n) == Indexes(n - 1) + {n - 1} && n - 1 !in Indexes(n - 1);
    }
  }

  lemma {:induction false} SameSize(a: set<nat>, b: set<nat>)
    requires a <= b && |a| == |b|
    ensures a == b
  {
    if a != {} {
      var k :| k in a;
      SameSize(a - {k}, b - {k});
    }
  }

  lemma RefusalIs(ops: seq<EditOp>, s: State, edits: Edits, disk: Disk)
    requires WellPlanned(ops, s) && Gathered(ops, s, NO_EDITS, edits)
    requires DeletesAll(edits, s) <==> Empties(ops, s)
    ensures Refusal(edits, s, disk).None? <==> Permitted(ops, s, disk) && disk.write.None?
  {
    hide WellPlanned; hide Empties; hide DeletesAll; hide Resolve;
    ConflictIs(ops, s, edits);
    ChangesIs(ops, s, edits);
  }

  lemma ConflictIs(ops: seq<EditOp>, s: State, edits: Edits)
    requires Gathered(ops, s, NO_EDITS, edits)
    ensures (exists k :: Deletes(ops, s, k) && Alters(ops, s, k)) <==>
              || (exists r :: r in edits.renames && r.0 in edits.deletes)
              || (exists v :: v in edits.versions && v.0 in edits.deletes)
  {
    hide Deletes; hide Alters;
    if k :| Deletes(ops, s, k) && Alters(ops, s, k) {
      assert Touched(edits, k);
    }
    if r :| r in edits.renames && r.0 in edits.deletes {
      assert Touched(edits, r.0);
    }
    if v :| v in edits.versions && v.0 in edits.deletes {
      assert Touched(edits, v.0);
    }
  }

  lemma ChangesIs(ops: seq<EditOp>, s: State, edits: Edits)
    requires WellPlanned(ops, s) && Gathered(ops, s, NO_EDITS, edits)
    ensures Changes(edits) <==> exists op :: op in ops && !op.Delete?
    ensures edits.deletes == [] && !Changes(edits) <==> ops == []
  {
    hide Resolve;
    if op :| op in ops && !op.Delete? {
      assert Fine(op, s);
      if op.Rename? || op.SetFileVersion? {
        var k := Resolve(op.id, s.entries, s.token).value;
        assert Alters(ops, s, k);
        assert Touched(edits, k);
      }
    }
    if Changes(edits) {
      if edits.renames != [] {
        assert edits.renames[0] in edits.renames && Touched(edits, edits.renames[0].0);
      } else if edits.versions != [] {
        assert edits.versions[0] in edits.versions && Touched(edits, edits.versions[0].0);
      }
    }
    if ops != [] && ops[0].Delete? {
      assert ops[0] in ops && Fine(ops[0], s);
      assert Deletes(ops, s, Resolve(ops[0].id, s.entries, s.token).value);
    }
    if edits.deletes != [] {
      assert edits.deletes[0] in edits.deletes && Deletes(ops, s, edits.deletes[0]);
    }
  }

  /** Why a plan that names only members of the catalog is refused. */
  ghost function Reason(ops: seq<EditOp>, disk: Disk): Error {
    if disk.incomplete then Unsupported
    else if exists op :: op in ops && op.SetRecovery? && op.percent > 100 then InvalidOption
    else if disk.volumeSet && Comments(ops) then Unsupported
    else if ops == [] then NothingToEdit
    else if disk.locked then ArchiveLocked
    else InvalidOption
  }

  /** A plan that is not permitted is refused with its reason, and the catalog, its token
      and those left stay as they were. */
  lemma RefusedAs(s: State, next: nat, ops: seq<EditOp>, disk: Disk)
    requires WellPlanned(ops, s) && !Permitted(ops, s, disk)
    ensures Applied(s, next, ops, disk) == (s, next, Err(Reason(ops, disk)))
  {
    hide WellPlanned; hide Comments; hide Protects; hide GatherAll; hide Resolve; hide DeletesAll; hide Empties;
    GatheredExactly(ops, s, NO_EDITS);
    GatheredInCatalog(ops, s, NO_EDITS);
    var edits := GatherAll(ops, s, NO_EDITS).value;
    DeletesAllIs(ops, s, edits);
    ConflictIs(ops, s, edits);
    ChangesIs(ops, s, edits);
  }

  // ---------------------------------------------------------------- runs over many archives

  datatype World = World(next: nat, archives: seq<State>)

  datatype Step =
    | Open(scan: Result<seq<Entry>>, quick: bool)
    | Rescan(who: nat, scan: Result<seq<Entry>>)
    | Edit(who: nat, ops: seq<EditOp>, disk: Disk)

  /** An archive whose opening fails is dropped. */
  function Next(w: World, step: Step): World {
    match step
    case Open(scan, quick) =>
      var (s, next, r) := Scanned(State([], 0, false), w.next, scan, quick);
      World(next, if r.Ok? then w.archives + [s] else w.archives)
    case Rescan(who, scan) =>
      if who >= |w.archives| then w
      else w.(archives := w.archives[who := Rescanned(w.archives[who], scan)])
    case Edit(who, ops, disk) =>
      if who >= |w.archives| then w
      else
        var (s, next, _) := Applied(w.archives[who], w.next, ops, disk);
        World(next, w.archives[who := s])
  }

  function Run(w: World, steps: seq<Step>): World
    decreases |steps|
  {
    if steps == [] then w else Run(Next(w, steps[0]), steps[1..])
  }

  /** Different archives hold different tokens, all handed out already. */
  ghost predicate Sound(w: World) {
    && w.next <= U64_MAX
    && (forall i :: 0 <= i < |w.archives| ==> 0 < w.archives[i].token < Frontier(w.next))
    && (forall i, j :: 0 <= i < j < |w.archives| ==> w.archives[i].token != w.archives[j].token)
  }

  /** Every archive keeps its token or got a new one. */
  ghost predicate Later(w: World, later: World) {
    && Frontier(w.next) <= Frontier(later.next)
    && |w.archives| <= |later.archives|
    && (forall i :: 0 <= i < |w.archives| ==>
          later.archives[i].token == w.archives[i].token || Frontier(w.next) <= later.archives[i].token)
    && (forall i :: |w.archives| <= i < |later.archives| ==> Frontier(w.next) <= later.archives[i].token)
  }

  lemma NextSound(w: World, step: Step)
    requires Sound(w)
    ensures Sound(Next(w, step)) && Later(w, Next(w, step))
  {
    assert w.next <= U64_MAX;
    hide Scanned; hide Rescanned; hide Applied; hide Sound; hide Later; hide Frontier;
    match step
    case Open(scan, quick) =>
      var (s, next, r) := Scanned(State([], 0, false), w.next, scan, quick);
      OpenTokens(w.next, scan, quick);
      if r.Ok? {
        Joins(w, s, next);
      } else {
        MovesOn(w, next);
      }
    case Rescan(who, scan) =>
      if who < |w.archives| {
        RescanKeepsToken(w.archives[who], scan);
        Replaced(w, who, Rescanned(w.archives[who], scan), w.next);
        assert w.(archives := w.archives[who := Rescanned(w.archives[who], scan)])
            == World(w.next, w.archives[who := Rescanned(w.archives[who], scan)]);
      } else {
        MovesOn(w, w.next);
      }
    case Edit(who, ops, disk) =>
      if who < |w.archives| {
        var (s, next, _) := Applied(w.archives[who], w.next, ops, disk);
        EditTokens(w.archives[who], w.next, ops, disk);
        Replaced(w, who, s, next);
      } else {
        MovesOn(w, w.next);
      }
  }

  /** What the steps do to a token. */
  predicate TokenMoves(token: nat, next: nat, tokenAfter: nat, nextAfter: nat) {
    && nextAfter <= U64_MAX && Frontier(next) <= Frontier(nextAfter)
    && (tokenAfter == token || Frontier(next) <= tokenAfter < Frontier(nextAfter))
  }

  lemma OpenTokens(next: nat, scan: Result<seq<Entry>>, quick: bool)
    requires next <= U64_MAX
    ensures var (s, after, r) := Scanned(State([], 0, false), next, scan, quick);
            && after <= U64_MAX && Frontier(next) <= Frontier(after)
            && (r.Ok? ==> Frontier(next) <= s.token < Frontier(after) && 0 < s.token)
  {
  }

  lemma RescanKeepsToken(s: State, scan: Result<seq<Entry>>)
    ensures Rescanned(s, scan).token == s.token
  {
  }

  lemma EditTokens(s: State, next: nat, ops: seq<EditOp>, disk: Disk)
    requires next <= U64_MAX
    ensures var (t, after, _) := Applied(s, next, ops, disk); TokenMoves(s.token, next, t.token, after)
  {
    hide GatherAll; hide Refusal;
  }

  lemma MovesOn(w: World, next: nat)
    requires Sound(w) && next <= U64_MAX && Frontier(w.next) <= Frontier(next)
    ensures Sound(World(next, w.archives)) && Later(w, World(next, w.archives))
  {
  }

  lemma Joins(w: World, s: State, next: nat)
    requires Sound(w) && next <= U64_MAX && Frontier(w.next) <= s.token < Frontier(next) && 0 < s.token
    ensures Sound(World(next, w.archives + [s])) && Later(w, World(next, w.archives + [s]))
  {
  }

  lemma Replaced(w: World, who: nat, s: State, next: nat)
    requires Sound(w) && who < |w.archives| && TokenMoves(w.archives[who].token, w.next, s.token, next)
    ensures Sound(World(next, w.archives[who := s])) && Later(w, World(next, w.archives[who := s]))
  {
  }

  lemma {:induction false} RunSound(w: World, steps: seq<Step>)
    requires Sound(w)
    ensures Sound(Run(w, steps)) && Later(w, Run(w, steps))
    decreases |steps|
  {
    hide Next;
    if steps != [] {
      NextSound(w, steps[0]);
      RunSound(Next(w, steps[0]), steps[1..]);
    }
  }

  /** However archives are opened, rescanned and edited, an ID resolves only against
      the archive that issued it, under the token it was issued with, and only to a
      member at its own payload offset. */
  lemma IdsStayScoped(w: World, who: nat, index: nat, steps: seq<Step>, other: nat)
    requires Sound(w) && who < |w.archives| && index < |w.archives[who].entries|
    requires other < |Run(w, steps).archives|
    ensures var id := Mint(w.archives[who].token, index, w.archives[who].entries[index]);
            var now := Run(w, steps).archives[other];
            match Resolve(id, now.entries, now.token)
            case Ok(k) => other == who && now.token == w.archives[who].token && k < |now.entries|
                          && now.entries[k].dataOffset == w.archives[who].entries[index].dataOffset
            case Err(e) => e == StaleEntryId
  {
    hide Run; hide Resolve;
    RunSound(w, steps);
    var now := Run(w, steps).archives[other];
    ResolveExactly(Mint(w.archives[who].token, index, w.archives[who].entries[index]), now.entries, now.token);
  }

  /** After a successful edit no ID issued before resolves ever again, in any archive. */
  lemma EditEndsIds(w: World, id: EntryId, who: nat, ops: seq<EditOp>, disk: Disk, steps: seq<Step>, other: nat)
    requires Sound(w) && who < |w.archives| && id.token == w.archives[who].token
    requires Applied(w.archives[who], w.next, ops, disk).2.Ok?
    requires other < |Run(Next(w, Edit(who, ops, disk)), steps).archives|
    ensures var now := Run(Next(w, Edit(who, ops, disk)), steps).archives[other];
            Resolve(id, now.entries, now.token) == Err(StaleEntryId)
  {
    hide Run; hide Applied;
    EditRenewsToken(w.archives[who], w.next, ops, disk);
    NextSound(w, Edit(who, ops, disk));
    RunSound(Next(w, Edit(who, ops, disk)), steps);
  }

  /** Once exhausted, always exhausted: no archive opens and no token changes. */
  lemma {:induction false} ExhaustedForever(w: World, steps: seq<Step>)
    requires Sound(w) && w.next == 0
    ensures Run(w, steps).next == 0 && |Run(w, steps).archives| == |w.archives|
    ensures forall i :: 0 <= i < |w.archives| ==> Run(w, steps).archives[i].token == w.archives[i].token
    decreases |steps|
  {
    hide GatherAll; hide Refusal;
    if steps != [] {
      NextSound(w, steps[0]);
      ExhaustedForever(Next(w, steps[0]), steps[1..]);
    }
  }
}
