/** Member selection by name, directory or wildcard mask (selector.rs). `windows`
    stands for the platform switch: masks may then use backslashes and letters
    compare without regard to ASCII case. */
module Selector {

  function Lower(c: char): char {
    if 'A' <= c <= 'Z' then c - 'A' + 'a' else c
  }

  predicate CharEq(windows: bool, a: char, b: char) {
    if windows then Lower(a) == Lower(b) else a == b
  }

  function Slashes(s: string): (r: string)
    ensures |r| == |s| && '\\' !in r
    ensures forall i :: 0 <= i < |s| ==> r[i] == s[i] || (s[i] == '\\' && r[i] == '/')
  {
    seq(|s|, i requires 0 <= i < |s| => if s[i] == '\\' then '/' else s[i])
  }

  function Normalized(windows: bool, mask: string): (r: string)
    ensures r == if windows then Slashes(mask) else mask
  {
    if windows && '\\' in mask then Slashes(mask) else mask
  }

  // ---------------------------------------------------------------- what a mask accepts

  /** What one mask character may stand for in the documented glob. */
  predicate GlobTakes(windows: bool, mc: char, piece: string) {
    if mc == '*' then true
    else if mc == '?' then |piece| == 1
    else |piece| == 1 && CharEq(windows, mc, piece[0])
  }

  /** What it may stand for in the program: a star takes one character or more, and
      none only while nothing of the name has been consumed. */
  predicate Takes(windows: bool, mc: char, piece: string, nothingConsumed: bool) {
    && GlobTakes(windows, mc, piece)
    && (mc == '*' ==> |piece| >= 1 || nothingConsumed)
  }

  /** `cuts` has a place before, between and after the pieces, one for each mask
      character. */
  predicate IsCut(cuts: seq<nat>, mask: string, name: string) {
    |cuts| == |mask| + 1 && cuts[0] == 0 && cuts[|mask|] == |name|
  }

  predicate GlobAt(windows: bool, mask: string, name: string, cuts: seq<nat>, j: nat)
    requires |cuts| == |mask| + 1 && j < |mask|
  {
    cuts[j] <= cuts[j + 1] <= |name| && GlobTakes(windows, mask[j], name[cuts[j]..cuts[j + 1]])
  }

  predicate MatchAt(windows: bool, mask: string, name: string, cuts: seq<nat>, j: nat)
    requires |cuts| == |mask| + 1 && j < |mask|
  {
    && cuts[j] <= cuts[j + 1] <= |name|
    && Takes(windows, mask[j], name[cuts[j]..cuts[j + 1]], cuts[j] == 0)
  }

  ghost predicate CutGlobs(windows: bool, mask: string, name: string, cuts: seq<nat>) {
    IsCut(cuts, mask, name) && forall j: nat :: j < |mask| ==> GlobAt(windows, mask, name, cuts, j)
  }

  ghost predicate CutMatches(windows: bool, mask: string, name: string, cuts: seq<nat>) {
    IsCut(cuts, mask, name) && forall j: nat :: j < |mask| ==> MatchAt(windows, mask, name, cuts, j)
  }

  /** The documented meaning of a mask. */
  ghost predicate Globs(windows: bool, mask: string, name: string) {
    exists cuts :: CutGlobs(windows, mask, name, cuts)
  }

  /** The meaning the program gives it. */
  ghost predicate Matches(windows: bool, mask: string, name: string) {
    exists cuts :: CutMatches(windows, mask, name, cuts)
  }

  // ---------------------------------------------------------------- the table

  /** Whether the first `j` mask characters can stand for the first `i` name characters. */
  ghost predicate Reach(windows: bool, mask: string, name: string, j: nat, i: nat)
    requires j <= |mask| && i <= |name|
    decreases j, 0
  {
    if j == 0 then i == 0
    else
      var mc := mask[j - 1];
      if mc == '*' then
        if i == 0 then Reach(windows, mask, name, j - 1, 0) else ReachBefore(windows, mask, name, j - 1, i)
      else
        i > 0 && Reach(windows, mask, name, j - 1, i - 1)
        && (mc == '?' || CharEq(windows, mc, name[i - 1]))
  }

  /** .. or some shorter part of the name than the first `i`. */
  ghost predicate ReachBefore(windows: bool, mask: string, name: string, j: nat, i: nat)
    requires j <= |mask| && i <= |name|
    decreases j, 1
  {
    exists k: nat :: k < i && Reach(windows, mask, name, j, k)
  }

  /** The rolling-array match accepts exactly the names that split along the mask. */
  method MaskMatch(windows: bool, rawMask: string, name: string) returns (accepted: bool)
    ensures accepted <==> Matches(windows, Normalized(windows, rawMask), name)
  {
    var mask := Normalized(windows, rawMask);
    var n := |name|;
    var prev := new bool[n + 1](_ => false);
    prev[0] := true;
    var j := 0;
    while j < |mask|
      invariant 0 <= j <= |mask|
      invariant prev.Length == n + 1
      invariant forall i: nat :: i <= n ==> prev[i] == Reach(windows, mask, name, j, i)
    {
      prev := NextRow(windows, mask, name, j, prev);
      j := j + 1;
    }
    ReachIsMatch(windows, mask, name);
    accepted := prev[n];
  }

  /** One row of the table from the one before. */
  method NextRow(windows: bool, mask: string, name: string, j: nat, prev: array<bool>) returns (cur: array<bool>)
    requires j < |mask| && prev.Length == |name| + 1
    requires forall i: nat :: i <= |name| ==> prev[i] == Reach(windows, mask, name, j, i)
    ensures fresh(cur) && cur.Length == |name| + 1
    ensures forall i: nat :: i <= |name| ==> cur[i] == Reach(windows, mask, name, j + 1, i)
  {
    var n, mc := |name|, mask[j];
    cur := new bool[n + 1](_ => false);
    var i := 0;
    while i < n
      invariant 0 <= i <= n
      invariant !cur[0]
      invariant forall k: nat :: 1 <= k <= i ==> cur[k] == Reach(windows, mask, name, j + 1, k)
      invariant forall k: nat :: k <= n ==> prev[k] == Reach(windows, mask, name, j, k)
    {
      var take;
      if mc == '*' {
        take := prev[i] || cur[i];
        StarStep(windows, mask, name, j, i);
      } else if mc == '?' {
        take := prev[i];
      } else {
        take := CharEq(windows, mc, name[i]) && prev[i];
      }
      cur[i + 1] := take;
      i := i + 1;
    }
    if mc == '*' {
      cur[0] := prev[0];
    }
  }

  lemma StarStep(windows: bool, mask: string, name: string, j: nat, i: nat)
    requires j < |mask| && mask[j] == '*' && i < |name|
    ensures Reach(windows, mask, name, j + 1, i + 1)
       <==> Reach(windows, mask, name, j, i) || (i > 0 && Reach(windows, mask, name, j + 1, i))
  {
    if Reach(windows, mask, name, j + 1, i + 1) {
      var k := BeforeWitness(windows, mask, name, j, i + 1);
    }
  }

  lemma BeforeWitness(windows: bool, mask: string, name: string, j: nat, i: nat) returns (k: nat)
    requires j <= |mask| && i <= |name| && ReachBefore(windows, mask, name, j, i)
    ensures k < i && Reach(windows, mask, name, j, k)
  {
    k :| k < i && Reach(windows, mask, name, j, k);
  }

  // ---------------------------------------------------------------- the table and the splits

  lemma {:induction false} ReachHasCut(windows: bool, mask: string, name: string, j: nat, i: nat)
    returns (cuts: seq<nat>)
    requires j <= |mask| && i <= |name| && Reach(windows, mask, name, j, i)
    ensures CutMatches(windows, mask[..j], name[..i], cuts)
  {
    if j == 0 {
      cuts := [0];
    } else {
      var k := i;
      if mask[j - 1] != '*' {
        k := i - 1;
      } else if i > 0 {
        k :| 0 <= k < i && Reach(windows, mask, name, j - 1, k);
      }
      var before := ReachHasCut(windows, mask, name, j - 1, k);
      cuts := before + [i];
      assert mask[..j] == mask[..j - 1] + [mask[j - 1]] && name[..i] == name[..k] + name[k..i];
      ExtendCut(windows, mask[..j - 1], name[..k], before, mask[j - 1], name[k..i]);
    }
  }

  lemma ExtendCut(windows: bool, mask: string, name: string, cuts: seq<nat>, mc: char, piece: string)
    requires CutMatches(windows, mask, name, cuts) && Takes(windows, mc, piece, name == "")
    ensures CutMatches(windows, mask + [mc], name + piece, cuts + [|name| + |piece|])
  {
    hide Takes;
    var m, n, c := mask + [mc], name + piece, cuts + [|name| + |piece|];
    forall j: nat | j < |m| ensures MatchAt(windows, m, n, c, j) {
      if j < |mask| {
        assert MatchAt(windows, mask, name, cuts, j);
        assert n[c[j]..c[j + 1]] == name[cuts[j]..cuts[j + 1]];
      } else {
        assert n[c[j]..c[j + 1]] == piece;
      }
    }
  }

  lemma {:induction false} CutIsReached(windows: bool, mask: string, name: string, cuts: seq<nat>, j: nat)
    requires CutMatches(windows, mask, name, cuts) && j <= |mask|
    ensures cuts[j] <= |name| && Reach(windows, mask, name, j, cuts[j])
  {
    if j > 0 {
      CutIsReached(windows, mask, name, cuts, j - 1);
      assert MatchAt(windows, mask, name, cuts, j - 1);
    }
  }

  lemma ReachIsMatch(windows: bool, mask: string, name: string)
    ensures Reach(windows, mask, name, |mask|, |name|) <==> Matches(windows, mask, name)
  {
    if Reach(windows, mask, name, |mask|, |name|) {
      var cuts := ReachHasCut(windows, mask, name, |mask|, |name|);
      assert mask[..|mask|] == mask && name[..|name|] == name;
    }
    if Matches(windows, mask, name) {
      var cuts :| CutMatches(windows, mask, name, cuts);
      CutIsReached(windows, mask, name, cuts, |mask|);
    }
  }

  // ---------------------------------------------------------------- against the documented glob

  /** Every accepted name matches the documented glob. */
  lemma MatchesAreGlobs(windows: bool, mask: string, name: string)
    requires Matches(windows, mask, name)
    ensures Globs(windows, mask, name)
  {
    var cuts :| CutMatches(windows, mask, name, cuts);
    forall j: nat | j < |mask| ensures GlobAt(windows, mask, name, cuts, j) {
      assert MatchAt(windows, mask, name, cuts, j);
    }
    assert CutGlobs(windows, mask, name, cuts);
  }

  /** No star follows any other mask character. */
  predicate StarsLead(mask: string) {
    forall j, k :: 0 <= j < k < |mask| && mask[k] == '*' ==> mask[j] == '*'
  }

  /** The converse fails: the mask `a*` rejects the name `a`, which the glob accepts. */
  lemma TrailingStarRejects(windows: bool)
    ensures Globs(windows, "a*", "a") && !Matches(windows, "a*", "a")
  {
    assert CutGlobs(windows, "a*", "a", [0, 1, 1]);
    if Matches(windows, "a*", "a") {
      var cuts :| CutMatches(windows, "a*", "a", cuts);
      LateStarTakesNothing(windows, cuts);
    }
  }

  lemma LateStarTakesNothing(windows: bool, cuts: seq<nat>)
    ensures !CutMatches(windows, "a*", "a", cuts)
  {
    if IsCut(cuts, "a*", "a") && MatchAt(windows, "a*", "a", cuts, 0) {
      assert cuts[1] == 1;
      assert !MatchAt(windows, "a*", "a", cuts, 1);
    }
  }

  /** A mask means to the program what the documentation says, for every name,
      exactly when its stars all come first. */
  lemma MaskIsGlobExactly(windows: bool, mask: string)
    ensures (forall name :: Matches(windows, mask, name) <==> Globs(windows, mask, name)) <==> StarsLead(mask)
  {
    if StarsLead(mask) {
      forall name ensures Matches(windows, mask, name) <==> Globs(windows, mask, name) {
        if Matches(windows, mask, name) { MatchesAreGlobs(windows, mask, name); }
        if Globs(windows, mask, name) { LeadingStarsMatch(windows, mask, name); }
      }
    } else {
      LateStarRejects(windows, mask);
    }
  }

  function Lead(mask: string): (p: nat)
    ensures p <= |mask|
    ensures forall j :: 0 <= j < p ==> mask[j] == '*'
    ensures p < |mask| ==> mask[p] != '*'
  {
    if mask == "" || mask[0] != '*' then 0 else 1 + Lead(mask[1..])
  }

  /** With the stars in front, let the last of them take all that the glob's stars took. */
  lemma LeadingStarsMatch(windows: bool, mask: string, name: string)
    requires StarsLead(mask) && Globs(windows, mask, name)
    ensures Matches(windows, mask, name)
  {
    var cuts :| CutGlobs(windows, mask, name, cuts);
    var p := Lead(mask);
    var moved := seq(|cuts|, j requires 0 <= j < |cuts| => if j < p then 0 else cuts[j]);
    assert p > 0 ==> moved[0] == 0;
    assert p == 0 ==> moved == cuts;
    assert IsCut(moved, mask, name);
    forall j: nat | j < |mask| ensures MatchAt(windows, mask, name, moved, j) {
      assert GlobAt(windows, mask, name, cuts, j);
      if j >= p {
        assert mask[j] != '*';
      }
    }
    assert CutMatches(windows, mask, name, moved);
  }

  /** The mask without its stars. */
  function Stripped(mask: string): string {
    if mask == "" then ""
    else if mask[0] == '*' then Stripped(mask[1..])
    else [mask[0]] + Stripped(mask[1..])
  }

  lemma {:induction false} StrippedGlobs(windows: bool, mask: string)
    ensures Globs(windows, mask, Stripped(mask))
  {
    if mask == "" {
      assert CutGlobs(windows, mask, "", [0]);
    } else {
      StrippedGlobs(windows, mask[1..]);
      var cuts :| CutGlobs(windows, mask[1..], Stripped(mask[1..]), cuts);
      ShiftedCut(windows, mask, Stripped(mask[1..]), cuts);
      assert Stripped(mask) == (if mask[0] == '*' then "" else [mask[0]]) + Stripped(mask[1..]);
    }
  }

  /** A cut of the rest, behind a character that takes itself or a star that takes
      nothing. */
  lemma ShiftedCut(windows: bool, mask: string, tail: string, cuts: seq<nat>)
    requires mask != "" && CutGlobs(windows, mask[1..], tail, cuts)
    ensures Globs(windows, mask, (if mask[0] == '*' then "" else [mask[0]]) + tail)
  {
    var head := if mask[0] == '*' then "" else [mask[0]];
    var name := head + tail;
    var all := [0] + seq(|cuts|, j requires 0 <= j < |cuts| => cuts[j] + |head|);
    forall j: nat | j < |mask| ensures GlobAt(windows, mask, name, all, j) {
      if j > 0 {
        assert GlobAt(windows, mask[1..], tail, cuts, j - 1);
        assert name[all[j]..all[j + 1]] == tail[cuts[j - 1]..cuts[j]];
      }
    }
    assert CutGlobs(windows, mask, name, all);
  }

  /** The pieces up to the `n`-th take at least as many characters as there are
      non-stars, and one more past a late star. */
  lemma {:induction false} PiecesTake(windows: bool, mask: string, name: string, cuts: seq<nat>,
                                      j: nat, k: nat, n: nat)
    requires CutMatches(windows, mask, name, cuts) && n <= |mask|
    requires j < k < |mask| && mask[j] != '*' && mask[k] == '*'
    ensures cuts[n] >= |Stripped(mask[..n])| + if k < n then 1 else 0
  {
    if n > 0 {
      PiecesTake(windows, mask, name, cuts, j, k, n - 1);
      assert MatchAt(windows, mask, name, cuts, n - 1);
      assert mask[..n] == mask[..n - 1] + [mask[n - 1]];
      StrippedAppend(mask[..n - 1], mask[n - 1]);
      if n - 1 == k {
        StrippedHas(mask[..k], j);
      }
    }
  }

  lemma {:induction false} StrippedAppend(mask: string, mc: char)
    ensures |Stripped(mask + [mc])| == |Stripped(mask)| + if mc == '*' then 0 else 1
  {
    if mask == "" {
      assert mask + [mc] == [mc];
    } else {
      assert (mask + [mc])[1..] == mask[1..] + [mc];
      StrippedAppend(mask[1..], mc);
    }
  }

  lemma {:induction false} StrippedHas(mask: string, j: nat)
    requires j < |mask| && mask[j] != '*'
    ensures |Stripped(mask)| > 0
  {
    if j > 0 {
      StrippedHas(mask[1..], j - 1);
    }
  }

  /** With a late star the program rejects the mask's own non-star characters. */
  lemma LateStarRejects(windows: bool, mask: string)
    requires !StarsLead(mask)
    ensures Globs(windows, mask, Stripped(mask)) && !Matches(windows, mask, Stripped(mask))
  {
    StrippedGlobs(windows, mask);
    var name := Stripped(mask);
    var j, k :| 0 <= j < k < |mask| && mask[k] == '*' && mask[j] != '*';
    if Matches(windows, mask, name) {
      var cuts :| CutMatches(windows, mask, name, cuts);
      assert mask[..|mask|] == mask;
      PiecesTake(windows, mask, name, cuts, j, k, |mask|);
    }
  }

  // ---------------------------------------------------------------- selecting members

  function TrimSlashes(s: string): (r: string)
    ensures r <= s && (r != "" ==> r[|r| - 1] != '/') && forall i :: |r| <= i < |s| ==> s[i] == '/'
  {
    if s != "" && s[|s| - 1] == '/' then TrimSlashes(s[..|s| - 1]) else s
  }

  /** What follows the last slash. */
  function Basename(s: string): (r: string)
    ensures '/' !in r && |r| <= |s| && s[|s| - |r|..] == r
    ensures |r| < |s| ==> s[|s| - |r| - 1] == '/'
  {
    if s == "" || s[|s| - 1] == '/' then ""
    else
      var rest := Basename(s[..|s| - 1]);
      assert s == s[..|s| - 1] + [s[|s| - 1]];
      rest + [s[|s| - 1]]
  }

  predicate EqName(windows: bool, a: string, b: string) {
    |a| == |b| && forall i :: 0 <= i < |a| ==> CharEq(windows, a[i], b[i])
  }

  /** Whether a (slash-separated, trimmed) selector names `member`: a mask against the
      whole path or, without a slash, against the basename; any other selector by the
      whole path or as a directory the member lies under. */
  ghost predicate Selects(windows: bool, requested: string, member: string) {
    requested != "" &&
    if '*' in requested || '?' in requested then
      Matches(windows, requested, member)
      || ('/' !in requested && Matches(windows, requested, Basename(member)))
    else
      EqName(windows, member, requested)
      || exists dir, rest :: LiesUnder(windows, requested, member, dir, rest)
  }

  predicate LiesUnder(windows: bool, requested: string, member: string, dir: string, rest: string) {
    member == dir + "/" + rest && EqName(windows, dir, requested)
  }

  predicate UnderDir(windows: bool, member: string, requested: string) {
    var n := |requested|;
    n + 1 <= |member| && member[n] == '/' && EqName(windows, member[..n], requested)
  }

  lemma UnderDirIs(windows: bool, member: string, requested: string)
    ensures UnderDir(windows, member, requested)
       <==> exists dir, rest :: LiesUnder(windows, requested, member, dir, rest)
  {
    var n := |requested|;
    if UnderDir(windows, member, requested) {
      assert member == member[..n] + "/" + member[n + 1..];
      assert LiesUnder(windows, requested, member, member[..n], member[n + 1..]);
    }
    if dir, rest :| LiesUnder(windows, requested, member, dir, rest) {
      assert member[..n] == dir;
    }
  }

  method NameMatches(windows: bool, member: string, requested: string) returns (selected: bool)
    ensures selected <==> Selects(windows, TrimSlashes(Slashes(requested)), Slashes(member))
  {
    var path := Slashes(member);
    var selector := TrimSlashes(Slashes(requested));
    assert '\\' !in selector by { assert selector <= Slashes(requested); }
    if selector == "" {
      return false;
    }
    if '*' in selector || '?' in selector {
      var whole := MaskMatch(windows, selector, path);
      if whole || '/' in selector {
        return whole;
      }
      selected := MaskMatch(windows, selector, Basename(path));
      return;
    }
    UnderDirIs(windows, path, selector);
    selected := EqName(windows, path, selector) || UnderDir(windows, path, selector);
  }

  // ---------------------------------------------------------------- selection by cases

  /** Letters are equal in either case on Windows, and nothing else is equal to another
      character. */
  lemma CharEqIs(windows: bool, a: char, b: char)
    ensures CharEq(windows, a, b) <==>
              || a == b
              || (windows && 'A' <= a <= 'Z' && b as int == a as int + 32)
              || (windows && 'A' <= b <= 'Z' && a as int == b as int + 32)
  {
  }

  predicate IsMask(s: string) {
    exists i :: 0 <= i < |s| && (s[i] == '*' || s[i] == '?')
  }

  /** Where case counts, a selector that is no mask selects the member of that name and
      everything under the directory of that name. */
  lemma PlainSelects(requested: string, member: string)
    requires requested != "" && !IsMask(requested)
    ensures Selects(false, requested, member) <==> member == requested || requested + "/" <= member
  {
    UnderDirIs(false, member, requested);
    assert !('*' in requested || '?' in requested);
    if EqName(false, member, requested) {
      assert member == requested;
    }
    if UnderDir(false, member, requested) {
      assert member[..|requested|] == requested;
      assert requested + "/" == member[..|requested| + 1];
    }
    if requested + "/" <= member {
      assert member[..|requested| + 1] == requested + "/";
      assert member[..|requested|] == requested;
    }
  }

  /** A mask is held against the whole path, and one without a slash also against what
      follows the last slash. */
  lemma MaskSelects(windows: bool, requested: string, dir: string, base: string)
    requires IsMask(requested) && '/' !in base
    ensures Selects(windows, requested, base) <==> Matches(windows, requested, base)
    ensures Selects(windows, requested, dir + "/" + base) <==>
              || Matches(windows, requested, dir + "/" + base)
              || ('/' !in requested && Matches(windows, requested, base))
  {
    hide Matches;
    assert '*' in requested || '?' in requested;
    BasenameIs(dir, base);
    BaseAlone(base);
  }

  lemma {:induction false} BaseAlone(base: string)
    requires '/' !in base
    ensures Basename(base) == base
  {
    if base != "" {
      var front, c := base[..|base| - 1], base[|base| - 1];
      assert base == front + [c];
      BaseAlone(front);
      BasenameNext(front, c);
    }
  }

  lemma {:induction false} BasenameIs(dir: string, base: string)
    requires '/' !in base
    ensures Basename(dir + "/" + base) == base
  {
    if base == "" {
      assert dir + "/" + base == dir + "/";
    } else {
      var front, c := base[..|base| - 1], base[|base| - 1];
      assert base == front + [c];
      assert dir + "/" + base == (dir + "/" + front) + [c];
      BasenameIs(dir, front);
      BasenameNext(dir + "/" + front, c);
    }
  }

  lemma BasenameNext(s: string, c: char)
    requires c != '/'
    ensures Basename(s + [c]) == Basename(s) + [c]
  {
    assert (s + [c])[..|s|] == s;
  }

  lemma EmptySelectsNone(windows: bool, member: string)
    ensures !Selects(windows, "", member)
  {
  }
}
