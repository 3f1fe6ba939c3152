/** Command-line switches: default switches merged and deduplicated, and switches
    given before the subcommand moved behind it (common.rs). The parser's command
    tree is reduced to three sets of names. */
module Switches {
  import opened Options

  /** Long options that may repeat. */
  const REPEATABLE: set<string> :=
    {"ts", "exclude", "include", "exclude-list", "include-list", "tn-filter", "to-filter", "id", "priority"}

  datatype Command = Command(
    valueOptions: set<string>,  // "--name" of every option that may take a separate value
    rootOptions: set<string>,   // "--name" of every option accepted before a subcommand
    subcommands: set<string>)

  function BeforeEquals(s: string): (r: string)
    ensures r <= s && '=' !in r && (if '=' in s then r + "=" <= s else r == s)
  {
    if s == "" || s[0] == '=' then "" else [s[0]] + BeforeEquals(s[1..])
  }

  /** The key of a long option, with or without an attached value. */
  function LongKey(arg: string): Option<string> {
    if "--" <= arg then Some(BeforeEquals(arg[2..])) else None
  }

  /** The key of a long option that may be given only once. */
  function SingleKey(arg: string): Option<string> {
    match LongKey(arg)
    case Some(key) => if key in REPEATABLE then None else Some(key)
    case None => None
  }

  /** Whether the token after `arg` is its value. */
  predicate TakesValue(arg: string, valueOptions: set<string>) {
    LongKey(arg).Some? && '=' !in arg && "--" + LongKey(arg).value in valueOptions
  }

  // ---------------------------------------------------------------- token groups

  /** A switch with its separate value, or a token on its own. Only groups of a
      single-value option carry a key. */
  datatype Group = Group(tokens: seq<string>, key: Option<string>)

  function Flat(groups: seq<Group>): seq<string> {
    if groups == [] then [] else groups[0].tokens + Flat(groups[1..])
  }

  lemma {:induction false} FlatAppend(a: seq<Group>, b: seq<Group>)
    ensures Flat(a + b) == Flat(a) + Flat(b)
  {
    if a == [] {
      assert a + b == b;
    } else {
      assert (a + b)[1..] == a[1..] + b;
      FlatAppend(a[1..], b);
    }
  }

  lemma FlatOne(g: Group)
    ensures Flat([g]) == g.tokens
  {
    assert Flat([g]) == g.tokens + [];
  }

  /** How many tokens the group at the head of `args` takes. */
  function HeadLength(args: seq<string>, valueOptions: set<string>): (n: nat)
    requires args != []
    ensures 1 <= n <= 2 && n <= |args|
  {
    if SingleKey(args[0]).Some? && TakesValue(args[0], valueOptions) && |args| > 1 then 2 else 1
  }

  function Groups(args: seq<string>, valueOptions: set<string>): seq<Group>
    decreases |args|
  {
    if args == [] then []
    else
      var n := HeadLength(args, valueOptions);
      [Group(args[..n], SingleKey(args[0]))] + Groups(args[n..], valueOptions)
  }

  lemma {:induction false} GroupsFlat(args: seq<string>, valueOptions: set<string>)
    ensures Flat(Groups(args, valueOptions)) == args
    decreases |args|
  {
    if args != [] {
      var n := HeadLength(args, valueOptions);
      GroupsFlat(args[n..], valueOptions);
      assert args == args[..n] + args[n..];
    }
  }

  // ---------------------------------------------------------------- deduplication

  predicate HasKey(groups: seq<Group>, key: Option<string>) {
    exists i :: 0 <= i < |groups| && groups[i].key == key
  }

  /** The groups that no later group of the same single-value key replaces. */
  function Survivors(groups: seq<Group>): seq<Group> {
    if groups == [] then []
    else if groups[0].key.Some? && HasKey(groups[1..], groups[0].key) then Survivors(groups[1..])
    else [groups[0]] + Survivors(groups[1..])
  }

  function Deduped(defaults: seq<string>, valueOptions: set<string>): seq<string> {
    Flat(Survivors(Groups(defaults, valueOptions)))
  }

  /** Whether a later group replaces group `a`. */
  predicate Replaced(groups: seq<Group>, a: nat)
    requires a < |groups|
  {
    groups[a].key.Some? && HasKey(groups[a + 1..], groups[a].key)
  }

  function Offset(groups: seq<Group>, a: nat): nat
    requires a <= |groups|
  {
    |Flat(groups[..a])|
  }

  /** The tokens not marked to be dropped. */
  function Undropped(args: seq<string>, drop: seq<bool>): seq<string>
    requires |args| == |drop|
  {
    if args == [] then []
    else (if drop[0] then [] else [args[0]]) + Undropped(args[1..], drop[1..])
  }

  /** The bookkeeping of the loop: every key's latest group and the tokens of all
      replaced groups marked. */
  ghost predicate Marked(done: seq<Group>, drop: seq<bool>, spans: map<string, (nat, nat)>, latest: map<string, nat>) {
    && |Flat(done)| <= |drop|
    && latest.Keys == spans.Keys
    && (forall key :: key in latest ==>
          latest[key] < |done| && IsLatest(done, key, latest[key])
          && spans[key] == (Offset(done, latest[key]), Offset(done, latest[key] + 1)))
    && (forall a: nat :: a < |done| && done[a].key.Some? ==> done[a].key.value in latest)
    && (forall a: nat :: a < |done| ==> MarkedAt(done, drop, a))
    && (forall k: nat :: |Flat(done)| <= k < |drop| ==> !drop[k])
  }

  predicate IsLatest(done: seq<Group>, key: string, a: nat) {
    a < |done| && done[a].key == Some(key) && forall b :: a < b < |done| ==> done[b].key != Some(key)
  }

  predicate MarkedAt(done: seq<Group>, drop: seq<bool>, a: nat)
    requires a < |done|
  {
    forall k: nat :: Offset(done, a) <= k < Offset(done, a + 1) && k < |drop| ==> drop[k] == Replaced(done, a)
  }

  method DedupeDefaults(defaults: seq<string>, valueOptions: set<string>) returns (r: seq<string>)
    ensures r == Deduped(defaults, valueOptions)
  {
    hide Marked; hide Flat; hide Marking; hide TakesValue; hide SingleKey; hide Undropped; hide Offset; hide ReadTo;
    hide Groups; hide Survivors;
    var spans: map<string, (nat, nat)> := map[];
    ghost var latest: map<string, nat> := map[];
    ghost var done: seq<Group> := [];
    var drop := new bool[|defaults|](_ => false);
    var index := 0;
    NothingMarked(drop[..]);
    NothingRead(defaults, valueOptions);
    while index < |defaults|
      invariant 0 <= index <= |defaults| && drop.Length == |defaults| && |Flat(done)| == index
      invariant ReadTo(defaults, valueOptions, index, done)
      invariant Marked(done, drop[..], spans, latest)
      decreases |defaults| - index
    {
      var arg := defaults[index];
      var end := index + 1;
      var key := SingleKey(arg);
      if key.Some? && TakesValue(arg, valueOptions) {
        end := if index + 2 <= |defaults| then index + 2 else |defaults|;
      }
      ghost var next := Group(defaults[index..end], key);
      ReadNext(defaults, valueOptions, index, end, done);
      MarkedNext(done, drop[..], spans, latest, next);
      if key.Some? {
        MarkedSpan(done, drop[..], spans, latest, key.value);
        MarkSpan(drop, spans, key.value);
        spans := spans[key.value := (index, end)];
        latest := latest[key.value := |done|];
      }
      done := done + [next];
      index := end;
    }
    AllDone(defaults, index, valueOptions, done);
    assert drop[..][0..] == drop[..];
    UndroppedIsSurvivors(done, drop[..], spans, latest, 0);
    assert done[0..] == done;
    r := Undropped(defaults, drop[..]);
  }

  /** Mark the tokens of the span that `key` was last seen with, if any. */
  method MarkSpan(drop: array<bool>, spans: map<string, (nat, nat)>, key: string)
    requires key in spans ==> spans[key].0 <= spans[key].1 <= drop.Length
    modifies drop
    ensures drop[..] == Marking(old(drop[..]), spans, key)
  {
    ghost var before := drop[..];
    if key in spans {
      var (start, stop) := spans[key];
      var slot := start;
      while slot < stop
        invariant start <= slot <= stop <= drop.Length
        invariant forall k: nat :: k < drop.Length ==> drop[k] == if start <= k < slot then true else before[k]
      {
        drop[slot] := true;
        slot := slot + 1;
      }
    }
  }

  lemma HeadEnds(args: seq<string>, index: nat, valueOptions: set<string>, end: nat)
    requires index < |args|
    requires end == if SingleKey(args[index]).Some? && TakesValue(args[index], valueOptions)
                       && index + 2 <= |args| then index + 2 else index + 1
    ensures end == index + HeadLength(args[index..], valueOptions)
  {
  }

  lemma AllDone(args: seq<string>, index: nat, valueOptions: set<string>, done: seq<Group>)
    requires index == |args| && ReadTo(args, valueOptions, index, done)
    ensures done == Groups(args, valueOptions) && Flat(done) == args && Offset(done, 0) == 0
  {
    assert args[index..] == [] && args[..index] == args;
    assert done + [] == done;
  }

  /** The marks after the span recorded for `key`, if any, has been marked. */
  function Marking(drop: seq<bool>, spans: map<string, (nat, nat)>, key: string): (r: seq<bool>)
    ensures |r| == |drop|
  {
    if key in spans then
      seq(|drop|, k requires 0 <= k < |drop| =>
        if spans[key].0 <= k < spans[key].1 then true else drop[k])
    else drop
  }

  // ---------------------------------------------------------------- the loop's bookkeeping

  lemma NothingMarked(drop: seq<bool>)
    requires forall k :: 0 <= k < |drop| ==> !drop[k]
    ensures Marked([], drop, map[], map[])
  {
  }

  /** The groups of the tokens in front of `index`. */
  predicate ReadTo(args: seq<string>, valueOptions: set<string>, index: nat, done: seq<Group>) {
    && index <= |args| && Flat(done) == args[..index]
    && done + Groups(args[index..], valueOptions) == Groups(args, valueOptions)
  }

  lemma NothingRead(args: seq<string>, valueOptions: set<string>)
    ensures ReadTo(args, valueOptions, 0, []) && Flat([]) == []
  {
    hide Groups;
    assert args[0..] == args && [] + Groups(args, valueOptions) == Groups(args, valueOptions);
  }

  lemma ReadNext(args: seq<string>, valueOptions: set<string>, index: nat, end: nat, done: seq<Group>)
    requires index < |args| && ReadTo(args, valueOptions, index, done)
    requires end == if SingleKey(args[index]).Some? && TakesValue(args[index], valueOptions)
                       && index + 2 <= |args| then index + 2 else index + 1
    ensures ReadTo(args, valueOptions, end, done + [Group(args[index..end], SingleKey(args[index]))])
    ensures |Flat(done)| == index && |Flat(done + [Group(args[index..end], SingleKey(args[index]))])| == end
  {
    hide Groups; hide Flat; hide HeadLength;
    HeadEnds(args, index, valueOptions, end);
    GroupStep(args, index, valueOptions, done, Group(args[index..end], SingleKey(args[index])));
  }

  lemma GroupStep(args: seq<string>, index: nat, valueOptions: set<string>, done: seq<Group>, next: Group)
    requires index < |args|
    requires Flat(done) == args[..index]
    requires next == Group(args[index..index + HeadLength(args[index..], valueOptions)], SingleKey(args[index]))
    ensures [next] + Groups(args[index + |next.tokens|..], valueOptions) == Groups(args[index..], valueOptions)
    ensures done + Groups(args[index..], valueOptions)
         == done + [next] + Groups(args[index + |next.tokens|..], valueOptions)
    ensures Flat(done + [next]) == args[..index + |next.tokens|]
  {
    hide Flat; hide SingleKey; hide HeadLength;
    var n := HeadLength(args[index..], valueOptions);
    GroupsNext(args, index, valueOptions);
    FlatAppend(done, [next]);
    FlatOne(next);
    assert args[..index] + args[index..index + n] == args[..index + n];
    assert done + ([next] + Groups(args[index + n..], valueOptions))
        == done + [next] + Groups(args[index + n..], valueOptions);
  }

  lemma GroupsNext(args: seq<string>, index: nat, valueOptions: set<string>)
    requires index < |args|
    ensures var n := HeadLength(args[index..], valueOptions);
            && index + n <= |args|
            && Groups(args[index..], valueOptions)
               == [Group(args[index..index + n], SingleKey(args[index]))] + Groups(args[index + n..], valueOptions)
  {
    hide SingleKey;
    var n := HeadLength(args[index..], valueOptions);
    assert args[index..][..n] == args[index..index + n] && args[index..][n..] == args[index + n..];
  }

  lemma OffsetExtends(done: seq<Group>, next: Group, a: nat)
    requires a <= |done|
    ensures Offset(done + [next], a) == Offset(done, a)
    ensures Offset(done, |done|) == |Flat(done)|
    ensures Offset(done + [next], |done| + 1) == |Flat(done)| + |next.tokens| == |Flat(done + [next])|
  {
    assert (done + [next])[..a] == done[..a];
    assert done[..|done|] == done && (done + [next])[..|done| + 1] == done + [next];
    FlatAppend(done, [next]);
    FlatOne(next);
  }

  lemma OffsetsGrow(done: seq<Group>, a: nat, b: nat)
    requires a <= b <= |done|
    ensures Offset(done, a) <= Offset(done, b) <= |Flat(done)|
  {
    assert done[..b] == done[..a] + done[a..b] && done == done[..b] + done[b..];
    FlatAppend(done[..a], done[a..b]);
    FlatAppend(done[..b], done[b..]);
  }

  lemma OffsetNext(done: seq<Group>, a: nat)
    requires a < |done|
    ensures Offset(done, a + 1) == Offset(done, a) + |done[a].tokens|
  {
    assert done[..a + 1] == done[..a] + [done[a]];
    FlatAppend(done[..a], [done[a]]);
    FlatOne(done[a]);
  }

  lemma MarkedSpan(done: seq<Group>, drop: seq<bool>, spans: map<string, (nat, nat)>,
                   latest: map<string, nat>, key: string)
    requires Marked(done, drop, spans, latest)
    ensures key in spans ==> spans[key].0 <= spans[key].1 <= |Flat(done)| <= |drop|
  {
    if key in spans {
      OffsetsGrow(done, latest[key], latest[key] + 1);
    }
  }

  lemma ReplacedNext(done: seq<Group>, next: Group, a: nat)
    requires a < |done|
    ensures Replaced(done + [next], a)
       <==> Replaced(done, a) || (done[a].key.Some? && done[a].key == next.key)
  {
    var all := done + [next];
    assert all[a + 1..] == done[a + 1..] + [next];
    if HasKey(done[a + 1..], done[a].key) {
      var i :| 0 <= i < |done[a + 1..]| && done[a + 1..][i].key == done[a].key;
      assert all[a + 1..][i].key == all[a].key;
    }
    if done[a].key == next.key {
      assert all[a + 1..][|done| - a - 1] == next;
    }
  }

  lemma ReplacedUnlessLatest(done: seq<Group>, key: string, latest: nat, a: nat)
    requires IsLatest(done, key, latest) && a < |done| && a != latest && done[a].key == Some(key)
    ensures Replaced(done, a)
  {
    assert done[a + 1..][latest - a - 1] == done[latest];
  }

  /** What the marks are after group `next`. */
  function NextDrop(drop: seq<bool>, spans: map<string, (nat, nat)>, next: Group): (r: seq<bool>)
    ensures |r| == |drop|
  {
    if next.key.Some? then Marking(drop, spans, next.key.value) else drop
  }

  lemma MarkedAtNext(done: seq<Group>, drop: seq<bool>, spans: map<string, (nat, nat)>,
                     latest: map<string, nat>, next: Group, a: nat)
    requires Marked(done, drop, spans, latest) && a < |done|
    ensures MarkedAt(done + [next], NextDrop(drop, spans, next), a)
  {
    hide HasKey; hide Flat; hide Offset; hide Replaced;
    OffsetExtends(done, next, a);
    OffsetExtends(done, next, a + 1);
    ReplacedNext(done, next, a);
    assert MarkedAt(done, drop, a);
    OffsetsGrow(done, a, a + 1);
    if next.key.Some? && next.key.value in spans {
      var l := latest[next.key.value];
      OffsetsGrow(done, l, l + 1);
      if a < l {
        OffsetsGrow(done, a + 1, l);
      } else if l < a {
        OffsetsGrow(done, l + 1, a);
      }
      if a != l && done[a].key == next.key {
        ReplacedUnlessLatest(done, next.key.value, l, a);
      }
    }
  }

  lemma MarkedNew(done: seq<Group>, drop: seq<bool>, spans: map<string, (nat, nat)>,
                  latest: map<string, nat>, next: Group)
    requires Marked(done, drop, spans, latest)
    ensures MarkedAt(done + [next], NextDrop(drop, spans, next), |done|)
    ensures forall k: nat :: |Flat(done)| <= k < |drop| ==> !NextDrop(drop, spans, next)[k]
  {
    hide Flat; hide Offset;
    OffsetExtends(done, next, |done|);
    assert (done + [next])[|done| + 1..] == [];
    if next.key.Some? {
      MarkedSpan(done, drop, spans, latest, next.key.value);
    }
  }

  lemma NextDropIs(drop: seq<bool>, spans: map<string, (nat, nat)>, next: Group)
    ensures NextDrop(drop, spans, next) == if next.key.Some? then Marking(drop, spans, next.key.value) else drop
  {
  }

  lemma MarkedNext(done: seq<Group>, drop: seq<bool>, spans: map<string, (nat, nat)>,
                   latest: map<string, nat>, next: Group)
    requires Marked(done, drop, spans, latest)
    requires |Flat(done)| + |next.tokens| <= |drop|
    ensures next.key.None? ==> Marked(done + [next], drop, spans, latest)
    ensures next.key.Some? ==>
              Marked(done + [next], Marking(drop, spans, next.key.value),
                     spans[next.key.value := (|Flat(done)|, |Flat(done)| + |next.tokens|)],
                     latest[next.key.value := |done|])
  {
    hide MarkedAt; hide Marking; hide Offset; hide Flat; hide NextDrop;
    NextDropIs(drop, spans, next);
    var all, now := done + [next], NextDrop(drop, spans, next);
    OffsetExtends(done, next, |done|);
    forall a: nat | a < |all| ensures MarkedAt(all, now, a) {
      if a < |done| {
        MarkedAtNext(done, drop, spans, latest, next, a);
      } else {
        MarkedNew(done, drop, spans, latest, next);
      }
    }
    MarkedNew(done, drop, spans, latest, next);
    forall key | key in latest && Some(key) != next.key
      ensures IsLatest(all, key, latest[key])
      ensures spans[key] == (Offset(all, latest[key]), Offset(all, latest[key] + 1))
    {
      OffsetExtends(done, next, latest[key]);
      OffsetExtends(done, next, latest[key] + 1);
    }
  }

  lemma {:induction false} UndroppedSplit(a: seq<string>, x: seq<bool>, b: seq<string>, y: seq<bool>)
    requires |a| == |x| && |b| == |y|
    ensures Undropped(a + b, x + y) == Undropped(a, x) + Undropped(b, y)
  {
    if a == [] {
      assert a + b == b && x + y == y;
    } else {
      assert (a + b)[1..] == a[1..] + b && (x + y)[1..] == x[1..] + y;
      UndroppedSplit(a[1..], x[1..], b, y);
    }
  }

  lemma {:induction false} UndroppedUniform(a: seq<string>, x: seq<bool>, flag: bool)
    requires |a| == |x| && forall k :: 0 <= k < |x| ==> x[k] == flag
    ensures Undropped(a, x) == if flag then [] else a
  {
    if a != [] {
      UndroppedUniform(a[1..], x[1..], flag);
    }
  }

  /** Dropping the marked tokens leaves the surviving groups. */
  lemma {:induction false} UndroppedIsSurvivors(done: seq<Group>, drop: seq<bool>,
      spans: map<string, (nat, nat)>, latest: map<string, nat>, a: nat)
    requires Marked(done, drop, spans, latest) && |Flat(done)| == |drop| && a <= |done|
    ensures Offset(done, a) <= |drop|
    ensures Undropped(Flat(done)[Offset(done, a)..], drop[Offset(done, a)..]) == Flat(Survivors(done[a..]))
    decreases |done| - a
  {
    hide Marked; hide Replaced; hide Undropped;
    OffsetsGrow(done, a, |done|);
    if a == |done| {
      assert done[..a] == done && done[a..] == [];
      UndroppedNothing();
      assert Flat(done)[Offset(done, a)..] == [] && drop[Offset(done, a)..] == [];
    } else {
      UndroppedIsSurvivors(done, drop, spans, latest, a + 1);
      OneGroup(done, drop, spans, latest, a);
    }
  }

  lemma UndroppedNothing()
    ensures Undropped([], []) == []
  {
  }

  lemma OneGroup(done: seq<Group>, drop: seq<bool>, spans: map<string, (nat, nat)>,
                 latest: map<string, nat>, a: nat)
    requires Marked(done, drop, spans, latest) && |Flat(done)| == |drop| && a < |done|
    ensures Offset(done, a) <= Offset(done, a + 1) <= |drop|
    ensures Undropped(Flat(done)[Offset(done, a)..], drop[Offset(done, a)..])
         == (if Replaced(done, a) then [] else done[a].tokens)
            + Undropped(Flat(done)[Offset(done, a + 1)..], drop[Offset(done, a + 1)..])
    ensures Flat(Survivors(done[a..]))
         == (if Replaced(done, a) then [] else done[a].tokens) + Flat(Survivors(done[a + 1..]))
  {
    hide Replaced; hide Undropped; hide HasKey;
    var lo, hi := Offset(done, a), Offset(done, a + 1);
    OffsetNext(done, a);
    OffsetsGrow(done, a + 1, |done|);
    var tokens := Flat(done);
    TokensAt(done, a);
    assert MarkedAt(done, drop, a);
    UndroppedUniform(tokens[lo..hi], drop[lo..hi], Replaced(done, a));
    UndroppedSplit(tokens[lo..hi], drop[lo..hi], tokens[hi..], drop[hi..]);
    assert tokens[lo..] == tokens[lo..hi] + tokens[hi..] && drop[lo..] == drop[lo..hi] + drop[hi..];
    SurvivorsHead(done, a);
  }

  lemma SurvivorsHead(done: seq<Group>, a: nat)
    requires a < |done|
    ensures Flat(Survivors(done[a..]))
         == (if Replaced(done, a) then [] else done[a].tokens) + Flat(Survivors(done[a + 1..]))
  {
    assert done[a..][1..] == done[a + 1..];
  }

  lemma TokensAt(done: seq<Group>, a: nat)
    requires a < |done|
    ensures Offset(done, a) <= Offset(done, a + 1) <= |Flat(done)|
    ensures Flat(done)[Offset(done, a)..Offset(done, a + 1)] == done[a].tokens
  {
    hide Flat;
    OffsetNext(done, a);
    OffsetsGrow(done, a + 1, |done|);
    assert done == done[..a] + ([done[a]] + done[a + 1..]);
    FlatAppend(done[..a], [done[a]] + done[a + 1..]);
    FlatAppend([done[a]], done[a + 1..]);
    FlatOne(done[a]);
  }

  // ---------------------------------------------------------------- what deduplication keeps

  predicate IsSubsequence(a: seq<string>, b: seq<string>) {
    if a == [] then true
    else if b == [] then false
    else (a[0] == b[0] && IsSubsequence(a[1..], b[1..])) || IsSubsequence(a, b[1..])
  }

  lemma {:induction false} SubsequencePrepend(x: seq<string>, a: seq<string>, b: seq<string>)
    requires IsSubsequence(a, b)
    ensures IsSubsequence(x + a, x + b)
  {
    if x == [] {
      assert x + a == a && x + b == b;
    } else {
      SubsequencePrepend(x[1..], a, b);
      assert (x + a)[1..] == x[1..] + a && (x + b)[1..] == x[1..] + b;
    }
  }

  lemma {:induction false} SubsequenceSkip(x: seq<string>, a: seq<string>, b: seq<string>)
    requires IsSubsequence(a, b)
    ensures IsSubsequence(a, x + b)
  {
    if x == [] {
      assert x + b == b;
    } else {
      SubsequenceSkip(x[1..], a, b);
      assert (x + b)[1..] == x[1..] + b;
    }
  }

  lemma {:induction false} SurvivorsSubsequence(groups: seq<Group>)
    ensures IsSubsequence(Flat(Survivors(groups)), Flat(groups))
  {
    if groups != [] {
      SurvivorsSubsequence(groups[1..]);
      var rest, kept := Flat(groups[1..]), Flat(Survivors(groups[1..]));
      SubsequencePrepend(groups[0].tokens, kept, rest);
      SubsequenceSkip(groups[0].tokens, kept, rest);
    }
  }

  /** Groups that parse back to themselves. */
  predicate WellGrouped(groups: seq<Group>, valueOptions: set<string>) {
    groups == [] ||
    (var g := groups[0];
     g.tokens != [] && g.key == SingleKey(g.tokens[0])
     && |g.tokens| == HeadLength(Flat(groups), valueOptions)
     && WellGrouped(groups[1..], valueOptions))
  }

  lemma {:induction false} GroupsWellGrouped(args: seq<string>, valueOptions: set<string>)
    ensures WellGrouped(Groups(args, valueOptions), valueOptions)
    decreases |args|
  {
    GroupsFlat(args, valueOptions);
    if args != [] {
      GroupsWellGrouped(args[HeadLength(args, valueOptions)..], valueOptions);
    }
  }

  lemma {:induction false} Regroup(groups: seq<Group>, valueOptions: set<string>)
    requires WellGrouped(groups, valueOptions)
    ensures Groups(Flat(groups), valueOptions) == groups
  {
    if groups != [] {
      var args, n := Flat(groups), |groups[0].tokens|;
      assert args[..n] == groups[0].tokens && args[n..] == Flat(groups[1..]);
      Regroup(groups[1..], valueOptions);
      assert groups == [groups[0]] + groups[1..];
    }
  }

  lemma {:induction false} SurvivorsWellGrouped(groups: seq<Group>, valueOptions: set<string>)
    requires WellGrouped(groups, valueOptions)
    ensures WellGrouped(Survivors(groups), valueOptions)
    ensures groups != [] ==> Survivors(groups) != []
  {
    if groups != [] {
      SurvivorsWellGrouped(groups[1..], valueOptions);
      var kept := [groups[0]] + Survivors(groups[1..]);
      assert Flat(kept)[0] == groups[0].tokens[0] == Flat(groups)[0];
      if groups[1..] == [] {
        assert groups == [groups[0]] == kept;
      } else {
        assert groups[1..][0].tokens != [];
        assert |Flat(groups)| > 1;
        if |groups[0].tokens| == 2 {
          assert |Flat(kept)| > 1;
        }
      }
    }
  }

  lemma {:induction false} SurvivorsHaveKeys(groups: seq<Group>, key: Option<string>)
    ensures HasKey(Survivors(groups), key) == HasKey(groups, key)
  {
    if groups != [] {
      SurvivorsHaveKeys(groups[1..], key);
      HasKeyStep(groups, key);
      HasKeyStep([groups[0]] + Survivors(groups[1..]), key);
    }
  }

  lemma HasKeyStep(groups: seq<Group>, key: Option<string>)
    requires groups != []
    ensures HasKey(groups, key) <==> groups[0].key == key || HasKey(groups[1..], key)
  {
    if i :| 0 <= i < |groups[1..]| && groups[1..][i].key == key {
      assert groups[i + 1].key == key;
    }
    if i :| 1 <= i < |groups| && groups[i].key == key {
      assert groups[1..][i - 1].key == key;
    }
  }

  lemma {:induction false} SurvivorsAgain(groups: seq<Group>)
    ensures Survivors(Survivors(groups)) == Survivors(groups)
  {
    if groups != [] {
      SurvivorsAgain(groups[1..]);
      SurvivorsHaveKeys(groups[1..], groups[0].key);
      assert ([groups[0]] + Survivors(groups[1..]))[1..] == Survivors(groups[1..]);
    }
  }

  /** The groups carrying a given key, in order. */
  function Select(groups: seq<Group>, key: Option<string>): seq<Group> {
    if groups == [] then []
    else (if groups[0].key == key then [groups[0]] else []) + Select(groups[1..], key)
  }

  function LastOnly(groups: seq<Group>): seq<Group> {
    if groups == [] then [] else [groups[|groups| - 1]]
  }

  lemma {:induction false} SelectNonEmpty(groups: seq<Group>, key: Option<string>)
    ensures Select(groups, key) != [] <==> HasKey(groups, key)
  {
    if groups != [] {
      SelectNonEmpty(groups[1..], key);
      HasKeyStep(groups, key);
    }
  }

  lemma {:induction false} SurvivorsSelect(groups: seq<Group>, key: Option<string>)
    ensures Select(Survivors(groups), key)
         == if key.Some? then LastOnly(Select(groups, key)) else Select(groups, key)
  {
    hide HasKey;
    if groups != [] {
      SurvivorsSelect(groups[1..], key);
      SelectNonEmpty(groups[1..], key);
      var kept := [groups[0]] + Survivors(groups[1..]);
      assert kept[1..] == Survivors(groups[1..]);
    }
  }

  /** Deduplication returns a subsequence; of each single-value key exactly the last
      occurrence stays, its separate value with it; repeatable switches and stray
      tokens all stay; and doing it again changes nothing. */
  lemma DedupedKeepsLast(defaults: seq<string>, valueOptions: set<string>)
    ensures IsSubsequence(Deduped(defaults, valueOptions), defaults)
    ensures forall key :: Select(Groups(Deduped(defaults, valueOptions), valueOptions), Some(key))
                       == LastOnly(Select(Groups(defaults, valueOptions), Some(key)))
    ensures Select(Groups(Deduped(defaults, valueOptions), valueOptions), None)
         == Select(Groups(defaults, valueOptions), None)
    ensures Deduped(Deduped(defaults, valueOptions), valueOptions) == Deduped(defaults, valueOptions)
  {
    hide Groups; hide Survivors; hide Select; hide Flat; hide IsSubsequence;
    var groups := Groups(defaults, valueOptions);
    GroupsFlat(defaults, valueOptions);
    GroupsWellGrouped(defaults, valueOptions);
    SurvivorsSubsequence(groups);
    SurvivorsWellGrouped(groups, valueOptions);
    Regroup(Survivors(groups), valueOptions);
    SurvivorsAgain(groups);
    forall key ensures Select(Survivors(groups), Some(key)) == LastOnly(Select(groups, Some(key))) {
      SurvivorsSelect(groups, Some(key));
    }
    SurvivorsSelect(groups, None);
  }

  // ---------------------------------------------------------------- finding the subcommand

  /** Switches only, each value-taking one with its value behind it. */
  predicate AllSwitches(args: seq<string>, valueOptions: set<string>)
    decreases |args|
  {
    args == [] ||
    (&& "-" <= args[0] && args[0] != "--"
     && if TakesValue(args[0], valueOptions) then |args| >= 2 && AllSwitches(args[2..], valueOptions)
        else AllSwitches(args[1..], valueOptions))
  }

  /** Where the subcommand stands: behind a run of switches, the first token that is
      neither a switch nor a switch's value; nowhere behind a bare `--`. */
  ghost predicate CommandAt(args: seq<string>, valueOptions: set<string>, index: nat) {
    index < |args| && !("-" <= args[index]) && AllSwitches(args[..index], valueOptions)
  }

  method CommandIndex(args: seq<string>, valueOptions: set<string>) returns (r: Option<nat>)
    ensures r.Some? ==> CommandAt(args, valueOptions, r.value)
    ensures r.None? ==> forall i: nat :: !CommandAt(args, valueOptions, i)
  {
    var index := 0;
    while index < |args|
      invariant 0 <= index <= |args| + 1
      invariant index <= |args| ==> AllSwitches(args[..index], valueOptions)
      invariant forall i: nat :: i < index ==> !CommandAt(args, valueOptions, i)
    {
      var arg := args[index];
      if arg == "--" {
        NothingBehind(args, valueOptions, index);
        return None;
      }
      if "--" <= arg {
        var name := arg[2..];
        NameIsKey(arg);
        SwitchStep(args, valueOptions, index);
        if '=' !in name && "--" + name in valueOptions {
          ValueIsNoCommand(args, valueOptions, index);
          index := index + 1;
        }
        index := index + 1;
        continue;
      }
      if "-" <= arg {
        SwitchStep(args, valueOptions, index);
        index := index + 1;
        continue;
      }
      NothingBehind(args, valueOptions, index);
      return Some(index);
    }
    return None;
  }

  lemma NameIsKey(arg: string)
    requires "--" <= arg
    ensures '=' !in arg ==> LongKey(arg) == Some(arg[2..])
    ensures '=' in arg <==> '=' in arg[2..]
  {
    assert arg == "--" + arg[2..];
  }

  lemma {:induction false} SwitchesAppend(a: seq<string>, b: seq<string>, valueOptions: set<string>)
    requires AllSwitches(a, valueOptions)
    ensures AllSwitches(a + b, valueOptions) == AllSwitches(b, valueOptions)
    decreases |a|
  {
    hide TakesValue;
    if a == [] {
      assert a + b == b;
    } else {
      var n := if TakesValue(a[0], valueOptions) then 2 else 1;
      assert (a + b)[n..] == a[n..] + b;
      SwitchesAppend(a[n..], b, valueOptions);
    }
  }

  /** Another switch, with its value when it takes one. */
  lemma SwitchStep(args: seq<string>, valueOptions: set<string>, index: nat)
    requires index < |args| && AllSwitches(args[..index], valueOptions)
    requires "-" <= args[index] && args[index] != "--"
    ensures !TakesValue(args[index], valueOptions) ==> AllSwitches(args[..index + 1], valueOptions)
    ensures TakesValue(args[index], valueOptions) && index + 2 <= |args| ==> AllSwitches(args[..index + 2], valueOptions)
  {
    hide TakesValue;
    SwitchesAppend(args[..index], [args[index]], valueOptions);
    assert args[..index + 1] == args[..index] + [args[index]];
    if TakesValue(args[index], valueOptions) && index + 2 <= |args| {
      SwitchesAppend(args[..index], args[index..index + 2], valueOptions);
      assert args[..index + 2] == args[..index] + args[index..index + 2];
      assert args[index..index + 2][2..] == [];
    }
  }

  lemma ValueIsNoCommand(args: seq<string>, valueOptions: set<string>, index: nat)
    requires index < |args| && AllSwitches(args[..index], valueOptions) && TakesValue(args[index], valueOptions)
    ensures !CommandAt(args, valueOptions, index + 1)
  {
    hide TakesValue;
    if index + 1 < |args| {
      SwitchesAppend(args[..index], [args[index]], valueOptions);
      assert args[..index + 1] == args[..index] + [args[index]];
    }
  }

  /** No subcommand is found behind a bare `--`, nor behind the first non-switch. */
  lemma NothingBehind(args: seq<string>, valueOptions: set<string>, index: nat)
    requires index < |args| && AllSwitches(args[..index], valueOptions)
    requires args[index] == "--" || !("-" <= args[index])
    ensures forall i: nat :: i > index ==> !CommandAt(args, valueOptions, i)
    ensures args[index] == "--" ==> !CommandAt(args, valueOptions, index)
  {
    forall i: nat | index < i < |args| ensures !AllSwitches(args[..i], valueOptions) {
      SwitchesAppend(args[..index], args[index..i], valueOptions);
      assert args[..i] == args[..index] + args[index..i];
    }
  }

  lemma CommandUnique(args: seq<string>, valueOptions: set<string>, i: nat, j: nat)
    requires CommandAt(args, valueOptions, i) && CommandAt(args, valueOptions, j)
    ensures i == j
  {
    NothingBehind(args, valueOptions, i);
    NothingBehind(args, valueOptions, j);
  }

  // ---------------------------------------------------------------- moving switches behind it

  /** The switches of a prefix, each with its value. */
  function Switchlets(prefix: seq<string>, valueOptions: set<string>): seq<seq<string>>
    decreases |prefix|
  {
    if prefix == [] then []
    else
      var n := if TakesValue(prefix[0], valueOptions) && |prefix| > 1 then 2 else 1;
      [prefix[..n]] + Switchlets(prefix[n..], valueOptions)
  }

  predicate BelongsToRoot(arg: string, rootOptions: set<string>) {
    LongKey(arg).Some? && "--" + LongKey(arg).value in rootOptions
  }

  /** The tokens of the switches that do, or do not, belong to the root command. */
  function Pick(switchlets: seq<seq<string>>, rootOptions: set<string>, toRoot: bool): seq<string> {
    if switchlets == [] then []
    else
      (if switchlets[0] != [] && BelongsToRoot(switchlets[0][0], rootOptions) == toRoot then switchlets[0] else [])
      + Pick(switchlets[1..], rootOptions, toRoot)
  }

  /** The arguments with the switches before the subcommand at `index` sorted out. */
  function Reordered(args: seq<string>, index: nat, cmd: Command): seq<string>
    requires index < |args|
  {
    var switchlets := Switchlets(args[..index], cmd.valueOptions);
    Pick(switchlets, cmd.rootOptions, true) + [args[index]]
    + Pick(switchlets, cmd.rootOptions, false) + args[index + 1..]
  }

  method ReorderSwitches(args: seq<string>, cmd: Command) returns (r: seq<string>)
    ensures (forall i: nat :: !CommandAt(args, cmd.valueOptions, i)) ==> r == args
    ensures forall i: nat :: CommandAt(args, cmd.valueOptions, i) ==>
              r == if i == 0 || args[i] !in cmd.subcommands then args else Reordered(args, i, cmd)
    ensures forall i: nat :: CommandAt(args, cmd.valueOptions, i) && i > 0 && args[i] in cmd.subcommands ==>
              multiset(r) == multiset(args) && exists k: nat, m: nat :: SortedOut(args, i, cmd, r, k, m)
  {
    hide SortedOut; hide Reordered;
    var found := CommandIndex(args, cmd.valueOptions);
    if found.None? {
      return args;
    }
    var index := found.value;
    forall i: nat | CommandAt(args, cmd.valueOptions, i) ensures i == index {
      CommandUnique(args, cmd.valueOptions, i, index);
    }
    if index == 0 || args[index] !in cmd.subcommands {
      return args;
    }
    r := MoveSwitches(args, index, cmd);
    ReorderKeeps(args, index, cmd);
    ghost var k, m := ReorderSorts(args, index, cmd);
  }

  /** The loop over the switches before the subcommand. */
  method MoveSwitches(args: seq<string>, index: nat, cmd: Command) returns (r: seq<string>)
    requires index < |args|
    ensures r == Reordered(args, index, cmd)
  {
    hide TakesValue; hide BelongsToRoot;
    ghost var prefix := args[..index];
    ghost var all := Switchlets(prefix, cmd.valueOptions);
    var rootPrefix, moved := [], [];
    var cursor := 0;
    assert prefix[0..] == prefix;
    while cursor < index
      invariant 0 <= cursor <= index
      invariant rootPrefix + Pick(Switchlets(prefix[cursor..], cmd.valueOptions), cmd.rootOptions, true)
             == Pick(all, cmd.rootOptions, true)
      invariant moved + Pick(Switchlets(prefix[cursor..], cmd.valueOptions), cmd.rootOptions, false)
             == Pick(all, cmd.rootOptions, false)
      decreases index - cursor
    {
      var arg := args[cursor];
      var end := cursor + 1;
      if TakesValue(arg, cmd.valueOptions) {
        end := if cursor + 2 <= index then cursor + 2 else index;
      }
      assert prefix[cursor..][..end - cursor] == args[cursor..end];
      assert prefix[cursor..][end - cursor..] == prefix[end..];
      assert args[cursor..end][0] == arg;
      PickStep(args[cursor..end], Switchlets(prefix[end..], cmd.valueOptions), cmd.rootOptions, rootPrefix, moved);
      if BelongsToRoot(arg, cmd.rootOptions) {
        rootPrefix := rootPrefix + args[cursor..end];
      } else {
        moved := moved + args[cursor..end];
      }
      cursor := end;
    }
    assert prefix[cursor..] == [];
    assert rootPrefix + [] == rootPrefix && moved + [] == moved;
    r := rootPrefix + [args[index]];
    r := r + moved;
    r := r + args[index + 1..];
  }

  lemma PickStep(head: seq<string>, tail: seq<seq<string>>, rootOptions: set<string>,
                 rootPrefix: seq<string>, moved: seq<string>)
    requires head != []
    ensures var toRoot := BelongsToRoot(head[0], rootOptions);
            && rootPrefix + Pick([head] + tail, rootOptions, true)
               == (if toRoot then rootPrefix + head else rootPrefix) + Pick(tail, rootOptions, true)
            && moved + Pick([head] + tail, rootOptions, false)
               == (if toRoot then moved else moved + head) + Pick(tail, rootOptions, false)
  {
    PickOne(head, tail, rootOptions, rootPrefix, true);
    PickOne(head, tail, rootOptions, moved, false);
  }

  lemma PickOne(head: seq<string>, tail: seq<seq<string>>, rootOptions: set<string>, picked: seq<string>, toRoot: bool)
    requires head != []
    ensures picked + Pick([head] + tail, rootOptions, toRoot)
         == (if BelongsToRoot(head[0], rootOptions) == toRoot then picked + head else picked)
            + Pick(tail, rootOptions, toRoot)
  {
    hide BelongsToRoot;
    assert ([head] + tail)[1..] == tail;
    var p := Pick(tail, rootOptions, toRoot);
    assert picked + (head + p) == picked + head + p && picked + ([] + p) == picked + p;
  }

  // ---------------------------------------------------------------- what reordering keeps

  /** The switches that do, or do not, belong to the root command, one by one. */
  function Chosen(switchlets: seq<seq<string>>, rootOptions: set<string>, toRoot: bool): seq<seq<string>> {
    if switchlets == [] then []
    else
      (if switchlets[0] != [] && BelongsToRoot(switchlets[0][0], rootOptions) == toRoot then [switchlets[0]] else [])
      + Chosen(switchlets[1..], rootOptions, toRoot)
  }

  /** The picked tokens are switches again, the chosen ones in their original order,
      every value right behind its switch. */
  lemma {:induction false} PickedParseBack(prefix: seq<string>, cmd: Command, toRoot: bool)
    requires AllSwitches(prefix, cmd.valueOptions)
    ensures var switchlets := Switchlets(prefix, cmd.valueOptions);
            var picked := Pick(switchlets, cmd.rootOptions, toRoot);
            && AllSwitches(picked, cmd.valueOptions)
            && Switchlets(picked, cmd.valueOptions) == Chosen(switchlets, cmd.rootOptions, toRoot)
    decreases |prefix|
  {
    hide TakesValue; hide BelongsToRoot;
    if prefix != [] {
      var n := if TakesValue(prefix[0], cmd.valueOptions) then 2 else 1;
      var head, rest := prefix[..n], Switchlets(prefix[n..], cmd.valueOptions);
      PickedParseBack(prefix[n..], cmd, toRoot);
      HeadParsesBack(head, Pick(rest, cmd.rootOptions, toRoot), cmd.valueOptions);
      PickHead(head, rest, cmd.rootOptions, toRoot);
    }
  }

  lemma HeadParsesBack(head: seq<string>, tail: seq<string>, valueOptions: set<string>)
    requires head != [] && |head| == if TakesValue(head[0], valueOptions) then 2 else 1
    requires "-" <= head[0] && head[0] != "--" && AllSwitches(tail, valueOptions)
    ensures AllSwitches(head + tail, valueOptions)
    ensures Switchlets(head + tail, valueOptions) == [head] + Switchlets(tail, valueOptions)
  {
    hide TakesValue;
    assert (head + tail)[..|head|] == head && (head + tail)[|head|..] == tail;
  }

  lemma PickHead(head: seq<string>, rest: seq<seq<string>>, rootOptions: set<string>, toRoot: bool)
    requires head != []
    ensures Pick([head] + rest, rootOptions, toRoot)
         == if BelongsToRoot(head[0], rootOptions) == toRoot then head + Pick(rest, rootOptions, toRoot)
            else Pick(rest, rootOptions, toRoot)
    ensures Chosen([head] + rest, rootOptions, toRoot)
         == if BelongsToRoot(head[0], rootOptions) == toRoot then [head] + Chosen(rest, rootOptions, toRoot)
            else Chosen(rest, rootOptions, toRoot)
  {
    hide BelongsToRoot;
    assert ([head] + rest)[1..] == rest;
  }

  lemma {:induction false} PickedSplit(switchlets: seq<seq<string>>, rootOptions: set<string>)
    requires forall s :: s in switchlets ==> s != []
    ensures multiset(Pick(switchlets, rootOptions, true)) + multiset(Pick(switchlets, rootOptions, false))
         == multiset(Joined(switchlets))
  {
    hide BelongsToRoot;
    if switchlets != [] {
      assert switchlets[0] in switchlets;
      forall s | s in switchlets[1..] ensures s in switchlets {
      }
      PickedSplit(switchlets[1..], rootOptions);
    }
  }

  function Joined(switchlets: seq<seq<string>>): seq<string> {
    if switchlets == [] then [] else switchlets[0] + Joined(switchlets[1..])
  }

  lemma {:induction false} SwitchletsJoin(prefix: seq<string>, valueOptions: set<string>)
    ensures Joined(Switchlets(prefix, valueOptions)) == prefix
    ensures forall s :: s in Switchlets(prefix, valueOptions) ==> s != []
    decreases |prefix|
  {
    hide TakesValue;
    if prefix != [] {
      var n := if TakesValue(prefix[0], valueOptions) && |prefix| > 1 then 2 else 1;
      SwitchletsJoin(prefix[n..], valueOptions);
      assert prefix == prefix[..n] + prefix[n..];
    }
  }

  lemma {:induction false} ChosenAgain(switchlets: seq<seq<string>>, rootOptions: set<string>, toRoot: bool)
    ensures forall s :: s in Chosen(switchlets, rootOptions, toRoot) ==>
              s != [] && BelongsToRoot(s[0], rootOptions) == toRoot
  {
    hide BelongsToRoot;
    if switchlets != [] {
      ChosenAgain(switchlets[1..], rootOptions, toRoot);
    }
  }

  lemma {:induction false} AllRootPicked(switchlets: seq<seq<string>>, rootOptions: set<string>)
    requires forall s :: s in switchlets ==> s != [] && BelongsToRoot(s[0], rootOptions)
    ensures Pick(switchlets, rootOptions, true) == Joined(switchlets)
    ensures Pick(switchlets, rootOptions, false) == []
  {
    hide BelongsToRoot;
    if switchlets != [] {
      assert switchlets[0] in switchlets;
      forall s | s in switchlets[1..] ensures s in switchlets {
      }
      AllRootPicked(switchlets[1..], rootOptions);
    }
  }

  /** Reordering permutes the arguments; the same subcommand is found again, with
      exactly the root switches before it and the others behind it, each in its
      original order with its value; and reordering again changes nothing. */
  lemma ReorderKeeps(args: seq<string>, index: nat, cmd: Command)
    requires CommandAt(args, cmd.valueOptions, index)
    ensures var switchlets := Switchlets(args[..index], cmd.valueOptions);
            var r, k := Reordered(args, index, cmd), |Pick(switchlets, cmd.rootOptions, true)|;
            var m := k + 1 + |Pick(switchlets, cmd.rootOptions, false)|;
            && multiset(r) == multiset(args)
            && CommandAt(r, cmd.valueOptions, k) && r[k] == args[index]
            && m <= |r| && r[m..] == args[index + 1..]
            && Switchlets(r[..k], cmd.valueOptions) == Chosen(switchlets, cmd.rootOptions, true)
            && Switchlets(r[k + 1..m], cmd.valueOptions) == Chosen(switchlets, cmd.rootOptions, false)
            && Reordered(r, k, cmd) == r
  {
    hide Switchlets; hide Pick; hide AllSwitches; hide Chosen; hide Joined;
    var prefix := args[..index];
    var switchlets := Switchlets(prefix, cmd.valueOptions);
    var p, q := Pick(switchlets, cmd.rootOptions, true), Pick(switchlets, cmd.rootOptions, false);
    var r := Reordered(args, index, cmd);
    var m := |p| + 1 + |q|;
    PickedParseBack(prefix, cmd, true);
    PickedParseBack(prefix, cmd, false);
    SwitchletsJoin(prefix, cmd.valueOptions);
    PickedSplit(switchlets, cmd.rootOptions);
    assert args == prefix + [args[index]] + args[index + 1..];
    assert r[..|p|] == p && r[|p| + 1..m] == q && r[m..] == args[index + 1..];
    ChosenAgain(switchlets, cmd.rootOptions, true);
    SwitchletsJoin(p, cmd.valueOptions);
    AllRootPicked(Switchlets(p, cmd.valueOptions), cmd.rootOptions);
    assert r == p + [r[|p|]] + [] + r[|p| + 1..];
  }

  /** The switch is one of these options, alone or with a value attached. */
  ghost predicate IsOneOf(arg: string, names: set<string>) {
    exists name :: IsOption(arg, name) && "--" + name in names
  }

  lemma BelongsExactly(arg: string, rootOptions: set<string>)
    ensures BelongsToRoot(arg, rootOptions) <==> IsOneOf(arg, rootOptions)
  {
    hide IsOption; hide LongKey;
    if BelongsToRoot(arg, rootOptions) {
      LongKeyIs(arg, LongKey(arg).value);
    }
    if name :| IsOption(arg, name) && "--" + name in rootOptions {
      LongKeyIs(arg, name);
    }
  }

  lemma RestIsPrefixed(arg: string)
    requires LongKey(arg).Some?
    ensures var name := "--" + LongKey(arg).value; arg == name || name + "=" <= arg
  {
    assert arg == "--" + arg[2..];
  }

  lemma KeyOfNamed(arg: string, name: string)
    requires "--" <= name && '=' !in name && (arg == name || name + "=" <= arg)
    ensures LongKey(arg) == Some(name[2..]) && "--" + name[2..] == name
  {
    assert name == "--" + name[2..];
    assert arg[..|name|] == name;
    var rest, key := arg[2..], name[2..];
    assert forall i :: 0 <= i < |key| ==> rest[i] == key[i] && key[i] in key && key[i] in name;
    KeyCutOff(rest, key);
  }

  lemma {:induction false} KeyCutOff(s: string, key: string)
    requires '=' !in key && (s == key || key + "=" <= s)
    ensures BeforeEquals(s) == key
  {
    if key != "" {
      assert s[0] == key[0] && key[0] in key;
      assert s == [s[0]] + s[1..] && key == [key[0]] + key[1..];
      if s != key {
        assert (key + "=")[1..] == key[1..] + "=";
        assert s[..|key| + 1] == key + "=";
        assert s[1..][..|key|] == key[1..] + "=";
      }
      KeyCutOff(s[1..], key[1..]);
    } else if s != key {
      assert s[0] == '=';
    }
  }

  /** `a` is what is left of `b` when some of it is taken out. */
  predicate Within<T(==)>(a: seq<T>, b: seq<T>) {
    a == [] || (b != [] && (if a[0] == b[0] then Within(a[1..], b[1..]) else Within(a, b[1..])))
  }

  lemma {:induction false} WithinLonger<T>(a: seq<T>, b: seq<T>, x: T)
    requires Within(a, b)
    ensures Within(a, [x] + b)
    decreases |b|, 1
  {
    assert ([x] + b)[1..] == b;
    if a != [] && a[0] == x {
      WithinTail(a, b);
    }
  }

  lemma {:induction false} WithinTail<T>(a: seq<T>, b: seq<T>)
    requires Within(a, b) && a != []
    ensures Within(a[1..], b)
    decreases |b|, 0
  {
    if a[0] == b[0] {
      WithinLonger(a[1..], b[1..], b[0]);
      assert [b[0]] + b[1..] == b;
    } else {
      WithinTail(a, b[1..]);
      WithinLonger(a[1..], b[1..], b[0]);
      assert [b[0]] + b[1..] == b;
    }
  }

  lemma {:induction false} ChosenWithin(switchlets: seq<seq<string>>, rootOptions: set<string>, toRoot: bool)
    ensures Within(Chosen(switchlets, rootOptions, toRoot), switchlets)
  {
    hide BelongsToRoot;
    if switchlets != [] {
      var rest := Chosen(switchlets[1..], rootOptions, toRoot);
      ChosenWithin(switchlets[1..], rootOptions, toRoot);
      if switchlets[0] != [] && BelongsToRoot(switchlets[0][0], rootOptions) == toRoot {
        assert ([switchlets[0]] + rest)[1..] == rest;
      } else {
        assert [] + rest == rest && [switchlets[0]] + switchlets[1..] == switchlets;
        WithinLonger(rest, switchlets[1..], switchlets[0]);
      }
    }
  }

  /** Arguments sorted out: the same command at `k`; in front of it exactly switches that
      are root options, behind it, up to `m`, exactly switches that are not, both in their
      original order with their values; and behind them what was behind the command. */
  ghost predicate SortedOut(args: seq<string>, index: nat, cmd: Command, r: seq<string>, k: nat, m: nat) {
    && index < |args| && k < m <= |r|
    && CommandAt(r, cmd.valueOptions, k) && r[k] == args[index] && r[m..] == args[index + 1..]
    && var all := Switchlets(args[..index], cmd.valueOptions);
       var front, back := Switchlets(r[..k], cmd.valueOptions), Switchlets(r[k + 1..m], cmd.valueOptions);
       && Within(front, all) && Within(back, all) && |front| + |back| == |all|
       && (forall s :: s in front ==> s != [] && IsOneOf(s[0], cmd.rootOptions))
       && (forall s :: s in back ==> s != [] && !IsOneOf(s[0], cmd.rootOptions))
  }

  /** What reordering is for, in terms of the arguments alone. */
  lemma ReorderSorts(args: seq<string>, index: nat, cmd: Command) returns (k: nat, m: nat)
    requires CommandAt(args, cmd.valueOptions, index)
    ensures SortedOut(args, index, cmd, Reordered(args, index, cmd), k, m)
  {
    hide Switchlets; hide Pick; hide AllSwitches; hide Chosen; hide Within; hide IsOneOf; hide BelongsToRoot;
    var all := Switchlets(args[..index], cmd.valueOptions);
    k := |Pick(all, cmd.rootOptions, true)|;
    m := k + 1 + |Pick(all, cmd.rootOptions, false)|;
    ReorderKeeps(args, index, cmd);
    ChosenWithin(all, cmd.rootOptions, true);
    ChosenWithin(all, cmd.rootOptions, false);
    ChosenAgain(all, cmd.rootOptions, true);
    ChosenAgain(all, cmd.rootOptions, false);
    SwitchletsJoin(args[..index], cmd.valueOptions);
    ChosenSplit(all, cmd.rootOptions);
    forall arg: string ensures BelongsToRoot(arg, cmd.rootOptions) <==> IsOneOf(arg, cmd.rootOptions) {
      BelongsExactly(arg, cmd.rootOptions);
    }
  }

  lemma {:induction false} ChosenSplit(switchlets: seq<seq<string>>, rootOptions: set<string>)
    requires forall s :: s in switchlets ==> s != []
    ensures |Chosen(switchlets, rootOptions, true)| + |Chosen(switchlets, rootOptions, false)| == |switchlets|
  {
    hide BelongsToRoot;
    if switchlets != [] {
      assert switchlets[0] in switchlets;
      forall s | s in switchlets[1..] ensures s in switchlets {
      }
      ChosenSplit(switchlets[1..], rootOptions);
    }
  }

  // ---------------------------------------------------------------- merging defaults

  ghost predicate Suppressed(arg: string, cliArgs: seq<string>) {
    SingleKey(arg).Some? && exists i :: 0 <= i < |cliArgs| && SingleKey(cliArgs[i]) == SingleKey(arg)
  }

  /** The default tokens that no command-line switch overrides. */
  ghost function Unsuppressed(defaults: seq<string>, cliArgs: seq<string>): seq<string> {
    if defaults == [] then []
    else (if Suppressed(defaults[0], cliArgs) then [] else [defaults[0]]) + Unsuppressed(defaults[1..], cliArgs)
  }

  method MergeDefaultSwitches(defaults: seq<string>, cliArgs: seq<string>, valueOptions: set<string>)
    returns (merged: seq<string>)
    ensures var kept := Deduped(Unsuppressed(defaults, cliArgs), valueOptions);
            && (kept == [] || (forall i: nat :: !CommandAt(cliArgs, valueOptions, i)) ==> merged == kept + cliArgs)
            && (forall i: nat :: CommandAt(cliArgs, valueOptions, i) ==>
                  merged == cliArgs[..i + 1] + kept + cliArgs[i + 1..])
  {
    hide Deduped; hide CommandAt; hide Unsuppressed;
    var rest := WithoutOverridden(defaults, cliArgs);
    var kept := DedupeDefaults(rest, valueOptions);
    var found := CommandIndex(cliArgs, valueOptions);
    var pos := if kept != [] && found.Some? then found.value + 1 else 0;
    InsertedBehind(cliArgs, kept, valueOptions, found);
    if kept == [] {
      return cliArgs;
    }
    merged := cliArgs[..pos];
    merged := merged + kept;
    merged := merged + cliArgs[pos..];
  }

  /** The filter that drops the default tokens overridden on the command line. */
  method WithoutOverridden(defaults: seq<string>, cliArgs: seq<string>) returns (rest: seq<string>)
    ensures rest == Unsuppressed(defaults, cliArgs)
  {
    hide SingleKey; hide Unsuppressed;
    var keys := KeysOf(cliArgs);
    rest := [];
    var i := 0;
    assert defaults[0..] == defaults;
    while i < |defaults|
      invariant 0 <= i <= |defaults|
      invariant rest + Unsuppressed(defaults[i..], cliArgs) == Unsuppressed(defaults, cliArgs)
    {
      UnsuppressedNext(defaults, i, cliArgs);
      var key := SingleKey(defaults[i]);
      assert Suppressed(defaults[i], cliArgs) <==> key.Some? && key.value in keys;
      if key.None? || key.value !in keys {
        rest := rest + [defaults[i]];
      }
      i := i + 1;
    }
    NothingUnsuppressed(defaults, cliArgs);
    assert rest + [] == rest;
  }

  /** The single-value keys given on the command line. */
  method KeysOf(cliArgs: seq<string>) returns (keys: set<string>)
    ensures forall key :: key in keys <==> exists j :: 0 <= j < |cliArgs| && SingleKey(cliArgs[j]) == Some(key)
  {
    hide SingleKey;
    keys := {};
    var i := 0;
    while i < |cliArgs|
      invariant 0 <= i <= |cliArgs|
      invariant forall key :: key in keys <==> exists j :: 0 <= j < i && SingleKey(cliArgs[j]) == Some(key)
    {
      var key := SingleKey(cliArgs[i]);
      if key.Some? {
        keys := keys + {key.value};
      }
      i := i + 1;
    }
  }

  lemma UnsuppressedNext(defaults: seq<string>, i: nat, cliArgs: seq<string>)
    requires i < |defaults|
    ensures Unsuppressed(defaults[i..], cliArgs)
         == (if Suppressed(defaults[i], cliArgs) then [] else [defaults[i]]) + Unsuppressed(defaults[i + 1..], cliArgs)
  {
    hide Suppressed;
    assert defaults[i..][1..] == defaults[i + 1..];
  }

  lemma NothingUnsuppressed(defaults: seq<string>, cliArgs: seq<string>)
    ensures Unsuppressed(defaults[|defaults|..], cliArgs) == []
  {
  }

  lemma InsertedBehind(args: seq<string>, kept: seq<string>, valueOptions: set<string>, found: Option<nat>)
    requires found.Some? ==> CommandAt(args, valueOptions, found.value)
    requires found.None? ==> forall i: nat :: !CommandAt(args, valueOptions, i)
    ensures found.Some? ==> found.value < |args|
    ensures forall i: nat :: CommandAt(args, valueOptions, i) ==> found == Some(i)
    ensures kept == [] ==> kept + args == args
    ensures kept == [] && found.Some? ==> args[..found.value + 1] + kept + args[found.value + 1..] == args
    ensures args[..0] + kept + args[0..] == kept + args
  {
    hide AllSwitches;
    forall i: nat | CommandAt(args, valueOptions, i) ensures found == Some(i) {
      CommandUnique(args, valueOptions, i, found.value);
    }
    assert args[..0] + kept == kept && args[0..] == args;
  }

  /** The defaults as whole switches: an overridden one goes with its value. */
  ghost function UnsuppressedGroups(groups: seq<Group>, cliArgs: seq<string>): seq<string> {
    if groups == [] then []
    else (if groups[0].tokens != [] && Suppressed(groups[0].tokens[0], cliArgs) then [] else groups[0].tokens)
         + UnsuppressedGroups(groups[1..], cliArgs)
  }

  /** A default whose switch is overridden but whose separate value is not, or the
      other way round. */
  ghost predicate Torn(g: Group, cliArgs: seq<string>) {
    |g.tokens| == 2 && Suppressed(g.tokens[0], cliArgs) != Suppressed(g.tokens[1], cliArgs)
  }

  /** Overriding drops whole switches exactly when it tears none apart. */
  lemma OverrideIsWholeExactly(defaults: seq<string>, cliArgs: seq<string>, valueOptions: set<string>)
    ensures Unsuppressed(defaults, cliArgs) == UnsuppressedGroups(Groups(defaults, valueOptions), cliArgs)
       <==> forall g :: g in Groups(defaults, valueOptions) ==> !Torn(g, cliArgs)
  {
    hide Torn;
    var groups := Groups(defaults, valueOptions);
    GroupsFlat(defaults, valueOptions);
    SmallGroups(defaults, valueOptions);
    if forall g :: g in groups ==> !Torn(g, cliArgs) {
      WholeWhenUntorn(groups, cliArgs);
    } else {
      var g :| g in groups && Torn(g, cliArgs);
      UnsuppressedClean(defaults, cliArgs);
      TornDiffers(groups, cliArgs, g);
    }
  }

  lemma {:induction false} SmallGroups(args: seq<string>, valueOptions: set<string>)
    ensures forall g :: g in Groups(args, valueOptions) ==> 1 <= |g.tokens| <= 2
    decreases |args|
  {
    if args != [] {
      SmallGroups(args[HeadLength(args, valueOptions)..], valueOptions);
    }
  }

  lemma {:induction false} UnsuppressedAppend(a: seq<string>, b: seq<string>, cliArgs: seq<string>)
    ensures Unsuppressed(a + b, cliArgs) == Unsuppressed(a, cliArgs) + Unsuppressed(b, cliArgs)
  {
    hide Suppressed;
    if a == [] {
      assert a + b == b;
    } else {
      assert (a + b)[1..] == a[1..] + b;
      UnsuppressedAppend(a[1..], b, cliArgs);
    }
  }

  /** What overriding leaves of one group. */
  lemma UnsuppressedGroup(g: Group, cliArgs: seq<string>)
    requires 1 <= |g.tokens| <= 2
    ensures !Torn(g, cliArgs) ==>
              Unsuppressed(g.tokens, cliArgs) == if Suppressed(g.tokens[0], cliArgs) then [] else g.tokens
    ensures Torn(g, cliArgs) && Suppressed(g.tokens[0], cliArgs) ==> |Unsuppressed(g.tokens, cliArgs)| == 1
  {
    hide Suppressed;
    var t := g.tokens;
    if |t| == 2 {
      assert t == [t[0]] + [t[1]];
      assert Unsuppressed([], cliArgs) == [];
      assert t[1..] == [t[1]] && [t[1]][1..] == [];
    }
  }

  lemma {:induction false} WholeWhenUntorn(groups: seq<Group>, cliArgs: seq<string>)
    requires forall g :: g in groups ==> 1 <= |g.tokens| <= 2 && !Torn(g, cliArgs)
    ensures Unsuppressed(Flat(groups), cliArgs) == UnsuppressedGroups(groups, cliArgs)
  {
    hide Suppressed; hide Torn;
    if groups != [] {
      assert groups[0] in groups;
      forall g | g in groups[1..] ensures g in groups {
      }
      WholeWhenUntorn(groups[1..], cliArgs);
      UnsuppressedAppend(groups[0].tokens, Flat(groups[1..]), cliArgs);
      UnsuppressedGroup(groups[0], cliArgs);
    }
  }

  lemma {:induction false} UnsuppressedClean(tokens: seq<string>, cliArgs: seq<string>)
    ensures forall t :: t in Unsuppressed(tokens, cliArgs) ==> !Suppressed(t, cliArgs)
  {
    hide Suppressed;
    if tokens != [] {
      UnsuppressedClean(tokens[1..], cliArgs);
    }
  }

  /** A torn group shows: either an overridden token stays among the whole switches,
      or more tokens stay than whole switches have. */
  lemma {:induction false} TornDiffers(groups: seq<Group>, cliArgs: seq<string>, torn: Group)
    requires forall g :: g in groups ==> 1 <= |g.tokens| <= 2
    requires torn in groups ==> Torn(torn, cliArgs)
    ensures (exists t :: t in UnsuppressedGroups(groups, cliArgs) && Suppressed(t, cliArgs))
         || |Unsuppressed(Flat(groups), cliArgs)|
            >= |UnsuppressedGroups(groups, cliArgs)| + (if torn in groups then 1 else 0)
  {
    hide Suppressed; hide Torn;
    if groups != [] {
      var g, rest := groups[0], groups[1..];
      assert g in groups;
      forall h | h in rest ensures h in groups {
      }
      TornDiffers(rest, cliArgs, torn);
      UnsuppressedAppend(g.tokens, Flat(rest), cliArgs);
      UnsuppressedGroup(g, cliArgs);
      TornKind(g, cliArgs);
      if t :| t in UnsuppressedGroups(rest, cliArgs) && Suppressed(t, cliArgs) {
        assert t in UnsuppressedGroups(groups, cliArgs);
      } else if Torn(g, cliArgs) && !Suppressed(g.tokens[0], cliArgs) {
        assert g.tokens[1] in UnsuppressedGroups(groups, cliArgs);
      }
    }
  }

  lemma TornKind(g: Group, cliArgs: seq<string>)
    requires |g.tokens| >= 1
    ensures Torn(g, cliArgs) ==>
              |g.tokens| == 2 && Suppressed(g.tokens[1], cliArgs) == !Suppressed(g.tokens[0], cliArgs)
  {
  }

  /** Overriding works token by token, so a default spelled with a separate value
      leaves that value behind: `--dest out` under a command line with `--dest=a`. */
  lemma StrayValueStays()
    ensures Unsuppressed(["--dest", "out"], ["x", "--dest=a"]) == ["out"]
  {
    var cli := ["x", "--dest=a"];
    DestKeys();
    assert SingleKey(cli[1]) == SingleKey("--dest");
    assert !Suppressed("out", cli);
    assert Unsuppressed(["out"], cli) == ["out"] + Unsuppressed([], cli);
  }

  lemma DestKeys()
    ensures SingleKey("--dest") == Some("dest") && SingleKey("--dest=a") == Some("dest")
    ensures SingleKey("out") == None
  {
    DestOption();
    hide IsOption; hide LongKey; hide SingleKey; hide Repeats;
    DestIsSingle();
    SingleKeyIs("--dest", "dest");
    SingleKeyIs("--dest=a", "dest");
    OutHasNoKey();
  }

  lemma DestIsSingle()
    ensures !Repeats("dest")
  {
    assert |"dest"| == 4;
  }

  lemma DestOption()
    ensures IsOption("--dest", "dest") && IsOption("--dest=a", "dest")
  {
    assert "--" + "dest" == "--dest" && "--dest" + "=" == "--dest=";
    assert "--dest=a"[..7] == "--dest=";
  }

  lemma OutHasNoKey()
    ensures SingleKey("out") == None
  {
    assert "out"[0] != '-';
  }

  // ---------------------------------------------------------------- switches by their spelling

  /** `arg` is the long option `name`, alone or with a value attached. */
  predicate IsOption(arg: string, name: string) {
    '=' !in name && (arg == "--" + name || "--" + name + "=" <= arg)
  }

  /** The options that may be given again. */
  predicate Repeats(name: string) {
    || name == "ts" || name == "exclude" || name == "include" || name == "exclude-list"
    || name == "include-list" || name == "tn-filter" || name == "to-filter" || name == "id"
    || name == "priority"
  }

  lemma LongKeyIs(arg: string, name: string)
    ensures LongKey(arg) == Some(name) <==> IsOption(arg, name)
  {
    var full := "--" + name;
    if LongKey(arg) == Some(name) {
      RestIsPrefixed(arg);
    }
    if IsOption(arg, name) {
      forall i | 0 <= i < |full| ensures full[i] != '=' {
        assert i < 2 || full[i] == name[i - 2];
      }
      KeyOfNamed(arg, full);
      assert full[2..] == name;
    }
  }

  /** A single-value key is the name of a long option that may not repeat. */
  lemma SingleKeyIs(arg: string, name: string)
    ensures SingleKey(arg) == Some(name) <==> IsOption(arg, name) && !Repeats(name)
  {
    hide LongKey; hide IsOption;
    LongKeyIs(arg, name);
    RepeatableIs(name);
  }

  lemma RepeatableIs(name: string)
    ensures name in REPEATABLE <==> Repeats(name)
  {
  }

  /** The next token is a value behind a long option that has none attached and may take
      a separate one. */
  lemma TakesValueIs(arg: string, valueOptions: set<string>)
    ensures TakesValue(arg, valueOptions) <==> "--" <= arg && '=' !in arg && arg in valueOptions
  {
    if "--" <= arg && '=' !in arg {
      assert arg == "--" + arg[2..];
      forall c | c in arg[2..] ensures c in arg {
      }
      assert '=' !in arg[2..];
    }
  }

  /** A default is overridden by any command-line argument for the same option. */
  lemma SuppressedIs(arg: string, cliArgs: seq<string>)
    ensures Suppressed(arg, cliArgs) <==>
              exists name :: IsOption(arg, name) && !Repeats(name) && exists c :: c in cliArgs && IsOption(c, name)
  {
    hide IsOption; hide Repeats; hide SingleKey;
    if Suppressed(arg, cliArgs) {
      var name := SingleKey(arg).value;
      SingleKeyIs(arg, name);
      var i :| 0 <= i < |cliArgs| && SingleKey(cliArgs[i]) == SingleKey(arg);
      SingleKeyIs(cliArgs[i], name);
      assert cliArgs[i] in cliArgs;
    }
    if name :| IsOption(arg, name) && !Repeats(name) && exists c :: c in cliArgs && IsOption(c, name) {
      var c :| c in cliArgs && IsOption(c, name);
      var i :| 0 <= i < |cliArgs| && cliArgs[i] == c;
      SingleKeyIs(arg, name);
      SingleKeyIs(c, name);
    }
  }

  /** A single-value option and its separate value stand together; every other token
      stands alone. */
  predicate RightGroup(g: Group, isLast: bool, valueOptions: set<string>) {
    && g.tokens != [] && g.key == SingleKey(g.tokens[0])
    && (|g.tokens| == 2 <==> g.key.Some? && TakesValue(g.tokens[0], valueOptions) && !(isLast && |g.tokens| == 1))
    && |g.tokens| <= 2
  }

  lemma {:induction false} GroupsAre(args: seq<string>, valueOptions: set<string>)
    ensures var groups := Groups(args, valueOptions);
            && Flat(groups) == args
            && forall i :: 0 <= i < |groups| ==> RightGroup(groups[i], i == |groups| - 1, valueOptions)
    decreases |args|
  {
    hide SingleKey; hide TakesValue;
    GroupsFlat(args, valueOptions);
    if args != [] {
      var n := HeadLength(args, valueOptions);
      GroupsAre(args[n..], valueOptions);
      NoGroups(args[n..], valueOptions);
    }
  }

  lemma NoGroups(args: seq<string>, valueOptions: set<string>)
    ensures Groups(args, valueOptions) == [] <==> args == []
  {
  }
}
