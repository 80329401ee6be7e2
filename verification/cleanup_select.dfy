/** Which files the retention pass keeps and which it tries to delete: the
    directory entries that are regular files with the wanted extension and a
    readable modification time, ordered newest first, split after the first
    `keepCount`. */
module CleanupSelect {

  /** A directory entry as the listing and a follow-up stat report it:
      its name, whether it is a directory, whether its stat succeeded and
      the modification time that stat gave (an abstract instant). */
  datatype Entry = Entry(name: string, isDir: bool, statOk: bool, mtime: int)

  /** ASCII lower-casing of one character. */
  function LowerChar(c: char): char {
    if 'A' <= c <= 'Z' then (c as int + 32) as char else c
  }

  /** Lower-casing of a name, character by character. */
  function Lower(s: string): (r: string)
    ensures |r| == |s|
    ensures forall i :: 0 <= i < |s| ==> r[i] == LowerChar(s[i])
  {
    if |s| == 0 then "" else [LowerChar(s[0])] + Lower(s[1..])
  }

  predicate HasSuffix(s: string, suffix: string) {
    |suffix| <= |s| && s[|s| - |suffix|..] == suffix
  }

  /** An entry the pass considers: not a directory, lower-cased name ending in
      `ext` (the extension itself is compared as given), and stat succeeded. */
  predicate IsCandidate(e: Entry, ext: string) {
    !e.isDir && HasSuffix(Lower(e.name), ext) && e.statOk
  }

  /** The candidates among the entries, in listing order (CandidatesAppend). */
  function Candidates(entries: seq<Entry>, ext: string): (r: seq<Entry>)
    ensures forall i :: 0 <= i < |r| ==> IsCandidate(r[i], ext)
    ensures forall e :: multiset(r)[e] == if IsCandidate(e, ext) then multiset(entries)[e] else 0
  {
    if |entries| == 0 then []
    else
      var rest := Candidates(entries[1..], ext);
      assert entries == [entries[0]] + entries[1..];
      if IsCandidate(entries[0], ext) then [entries[0]] + rest else rest
  }

  /** The filter keeps listing order: it distributes over concatenation.
      With CandidateSingle this fixes the result, order included, for every
      listing. */
  lemma {:induction false} CandidatesAppend(a: seq<Entry>, b: seq<Entry>, ext: string)
    ensures Candidates(a + b, ext) == Candidates(a, ext) + Candidates(b, ext)
  {
    if |a| == 0 {
      assert a + b == b;
    } else {
      assert (a + b)[1..] == a[1..] + b;
      CandidatesAppend(a[1..], b, ext);
    }
  }

  /** A single entry is kept exactly when it is a candidate. */
  lemma CandidateSingle(e: Entry, ext: string)
    ensures Candidates([e], ext) == if IsCandidate(e, ext) then [e] else []
  {
    assert [e][1..] == [];
  }

  /** Directories, names without the extension and entries whose stat failed
      are never candidates, so never deleted. */
  lemma NonCandidatesUntouched(entries: seq<Entry>, ext: string, e: Entry)
    requires e.isDir || !HasSuffix(Lower(e.name), ext) || !e.statOk
    ensures e !in Candidates(entries, ext)
  {
    assert multiset(Candidates(entries, ext))[e] == 0;
  }

  /** A lower-cased name has no upper-case ASCII letter, so an extension that
      has one matches no entry at all. */
  lemma UpperCaseExtensionMatchesNothing(e: Entry, ext: string, k: nat)
    requires k < |ext| && 'A' <= ext[k] <= 'Z'
    ensures !IsCandidate(e, ext)
  {
  }

  /** Newest first: modification times never increase along the sequence. */
  ghost predicate NewestFirst(s: seq<Entry>) {
    forall i, j :: 0 <= i < j < |s| ==> s[i].mtime >= s[j].mtime
  }

  /** Inserts `e` into a newest-first sequence, before any entry of equal age. */
  function Insert(e: Entry, s: seq<Entry>): (r: seq<Entry>)
    requires NewestFirst(s)
    ensures NewestFirst(r)
    ensures multiset(r) == multiset(s) + multiset{e}
  {
    if |s| == 0 then [e]
    else if e.mtime >= s[0].mtime then
      assert NewestFirst([e] + s) by { ConsNewestFirst(e, s); }
      [e] + s
    else
      assert s == [s[0]] + s[1..];
      assert NewestFirst(s[1..]) by { TailNewestFirst(s); }
      var rest := Insert(e, s[1..]);
      assert NewestFirst([s[0]] + rest) by { InsertedTailDominated(e, s, rest); }
      [s[0]] + rest
  }

  lemma TailNewestFirst(s: seq<Entry>)
    requires NewestFirst(s) && |s| > 0
    ensures NewestFirst(s[1..])
  {
    forall i, j | 0 <= i < j < |s[1..]| ensures s[1..][i].mtime >= s[1..][j].mtime {
      assert s[1..][i] == s[i + 1] && s[1..][j] == s[j + 1];
    }
  }

  /** Putting an entry at least as new as the head in front keeps the order. */
  lemma ConsNewestFirst(x: Entry, s: seq<Entry>)
    requires NewestFirst(s)
    requires forall k :: 0 <= k < |s| ==> x.mtime >= s[k].mtime
    ensures NewestFirst([x] + s)
  {
    var r := [x] + s;
    forall i, j | 0 <= i < j < |r| ensures r[i].mtime >= r[j].mtime {
      if i > 0 {
        assert r[i] == s[i - 1] && r[j] == s[j - 1];
      } else {
        assert r[j] == s[j - 1];
      }
    }
  }

  /** The head of `s` is at least as new as everything the insertion into
      its tail produced. */
  lemma InsertedTailDominated(e: Entry, s: seq<Entry>, rest: seq<Entry>)
    requires NewestFirst(s) && |s| > 0 && e.mtime < s[0].mtime
    requires NewestFirst(rest) && multiset(rest) == multiset(s[1..]) + multiset{e}
    ensures NewestFirst([s[0]] + rest)
  {
    forall k | 0 <= k < |rest| ensures s[0].mtime >= rest[k].mtime {
      var x := rest[k];
      assert x in multiset(rest);
      if x != e {
        assert x in multiset(s[1..]);
        var l :| 0 <= l < |s[1..]| && s[1..][l] == x;
        assert s[1..][l] == s[l + 1];
      }
    }
    ConsNewestFirst(s[0], rest);
  }

  /** One sort that orders the candidates newest first. The order it gives
      equal times is one of those an unstable sort may give; `RetentionByAge`
      states what holds for every such order. */
  function SortNewestFirst(s: seq<Entry>): (r: seq<Entry>)
    ensures NewestFirst(r)
    ensures multiset(r) == multiset(s)
  {
    if |s| == 0 then []
    else
      assert s == [s[0]] + s[1..];
      Insert(s[0], SortNewestFirst(s[1..]))
  }

  /** The kept files and the deletion targets. */
  datatype Plan = Plan(kept: seq<Entry>, targets: seq<Entry>)

  /** Sorts the candidates newest first and targets every position from
      `keepCount` on; with no more than `keepCount` candidates, nothing is
      targeted. */
  function SelectTargets(candidates: seq<Entry>, keepCount: nat): (p: Plan)
    ensures NewestFirst(p.kept + p.targets)
    ensures multiset(p.kept + p.targets) == multiset(candidates)
    ensures |p.kept| == if |candidates| <= keepCount then |candidates| else keepCount
    ensures |p.targets| == if |candidates| <= keepCount then 0 else |candidates| - keepCount
    ensures forall i, j :: 0 <= i < |p.kept| && 0 <= j < |p.targets| ==> p.kept[i].mtime >= p.targets[j].mtime
  {
    var sorted := SortNewestFirst(candidates);
    assert |sorted| == |multiset(sorted)| == |multiset(candidates)| == |candidates|;
    if |sorted| > keepCount then
      assert sorted[..keepCount] + sorted[keepCount..] == sorted;
      Plan(sorted[..keepCount], sorted[keepCount..])
    else
      assert sorted + [] == sorted;
      Plan(sorted, [])
  }

  /** Whether `e` is newer than `t` (strictly, or at least as new). */
  predicate NewerThan(e: Entry, t: int, strict: bool) {
    if strict then e.mtime > t else e.mtime >= t
  }

  /** Number of entries of `s` newer than `t`. */
  function CountNewer(s: seq<Entry>, t: int, strict: bool): nat {
    if |s| == 0 then 0
    else (if NewerThan(s[0], t, strict) then 1 else 0) + CountNewer(s[1..], t, strict)
  }

  lemma {:induction false} CountNewerAppend(u: seq<Entry>, v: seq<Entry>, t: int, strict: bool)
    ensures CountNewer(u + v, t, strict) == CountNewer(u, t, strict) + CountNewer(v, t, strict)
  {
    if |u| > 0 {
      assert (u + v)[0] == u[0];
      assert (u + v)[1..] == u[1..] + v;
      CountNewerAppend(u[1..], v, t, strict);
    } else {
      assert u + v == v;
    }
  }

  lemma {:induction false} CountNewerBound(s: seq<Entry>, t: int, strict: bool)
    ensures CountNewer(s, t, strict) <= |s|
  {
    if |s| > 0 {
      CountNewerBound(s[1..], t, strict);
    }
  }

  /** Taking out the entry at position j. */
  lemma CountNewerRemove(b: seq<Entry>, j: nat, t: int, strict: bool)
    requires j < |b|
    ensures multiset(b[..j] + b[j + 1..]) == multiset(b) - multiset{b[j]}
    ensures CountNewer(b, t, strict) ==
      (if NewerThan(b[j], t, strict) then 1 else 0) + CountNewer(b[..j] + b[j + 1..], t, strict)
  {
    var x := b[j];
    assert b == b[..j] + ([x] + b[j + 1..]);
    assert multiset(b) == multiset(b[..j]) + multiset{x} + multiset(b[j + 1..]);
    CountNewerAppend(b[..j], [x] + b[j + 1..], t, strict);
    CountNewerAppend([x], b[j + 1..], t, strict);
    CountNewerAppend(b[..j], b[j + 1..], t, strict);
  }

  /** Counting depends only on the multiset of entries, not on their order. */
  lemma {:induction false} CountNewerPermutation(a: seq<Entry>, b: seq<Entry>, t: int, strict: bool)
    requires multiset(a) == multiset(b)
    ensures CountNewer(a, t, strict) == CountNewer(b, t, strict)
    decreases |a|
  {
    if |a| == 0 {
      assert |b| == |multiset(b)| == 0;
    } else {
      var x := a[0];
      assert a == [x] + a[1..];
      assert multiset(a) == multiset{x} + multiset(a[1..]);
      assert x in multiset(b);
      var j :| 0 <= j < |b| && b[j] == x;
      CountNewerRemove(b, j, t, strict);
      CountNewerPermutation(a[1..], b[..j] + b[j + 1..], t, strict);
    }
  }

  /** Entries of a sequence that all are (resp. none is) newer than `t`. */
  lemma {:induction false} CountNewerAllOrNone(s: seq<Entry>, t: int, strict: bool)
    ensures (forall i :: 0 <= i < |s| ==> NewerThan(s[i], t, strict)) ==> CountNewer(s, t, strict) == |s|
    ensures (forall i :: 0 <= i < |s| ==> !NewerThan(s[i], t, strict)) ==> CountNewer(s, t, strict) == 0
  {
    if |s| > 0 {
      CountNewerAllOrNone(s[1..], t, strict);
      assert forall i :: 0 <= i < |s[1..]| ==> s[1..][i] == s[i + 1];
    }
  }

  /** In a newest-first sequence, fewer than i entries are strictly newer
      than the one at position i. */
  lemma StrictlyNewerBefore(order: seq<Entry>, i: nat)
    requires NewestFirst(order) && i < |order|
    ensures CountNewer(order, order[i].mtime, true) <= i
  {
    var t := order[i].mtime;
    assert order == order[..i] + order[i..];
    CountNewerAppend(order[..i], order[i..], t, true);
    CountNewerBound(order[..i], t, true);
    forall k | 0 <= k < |order[i..]| ensures !NewerThan(order[i..][k], t, true) {
      assert order[i..][k] == order[i + k];
    }
    CountNewerAllOrNone(order[i..], t, true);
  }

  /** In a newest-first sequence, the i + 1 entries up to position i are all
      at least as new as the one at position i. */
  lemma AtLeastAsNewUpTo(order: seq<Entry>, i: nat)
    requires NewestFirst(order) && i < |order|
    ensures CountNewer(order, order[i].mtime, false) >= i + 1
  {
    var t := order[i].mtime;
    assert order == order[..i + 1] + order[i + 1..];
    CountNewerAppend(order[..i + 1], order[i + 1..], t, false);
    var prefix := order[..i + 1];
    forall k | 0 <= k < |prefix| ensures NewerThan(prefix[k], t, false) {
      assert prefix[k] == order[k];
    }
    CountNewerAllOrNone(prefix, t, false);
  }

  /** What holds in EVERY newest-first ordering of the candidates, whatever
      order it gives entries of equal age: an entry at least `keepCount`
      candidates are strictly newer than lies at a targeted position, and an
      entry at most `keepCount` candidates (itself included) are at least as
      new as lies at a kept position. So the `keepCount` newest files are
      never touched, and every strictly older file beyond them is targeted. */
  lemma RetentionByAge(order: seq<Entry>, candidates: seq<Entry>, keepCount: nat, i: nat)
    requires NewestFirst(order) && multiset(order) == multiset(candidates)
    requires i < |order|
    ensures CountNewer(candidates, order[i].mtime, true) >= keepCount ==> i >= keepCount
    ensures CountNewer(candidates, order[i].mtime, false) <= keepCount ==> i < keepCount
  {
    var t := order[i].mtime;
    CountNewerPermutation(order, candidates, t, true);
    CountNewerPermutation(order, candidates, t, false);
    StrictlyNewerBefore(order, i);
    AtLeastAsNewUpTo(order, i);
  }

  /** The plan `SelectTargets` builds is one such ordering. */
  lemma SelectTargetsByAge(candidates: seq<Entry>, keepCount: nat, i: nat)
    requires var p := SelectTargets(candidates, keepCount); i < |p.kept| + |p.targets|
    ensures var p := SelectTargets(candidates, keepCount);
      var e := (p.kept + p.targets)[i];
      && (CountNewer(candidates, e.mtime, true) >= keepCount ==> i >= |p.kept| && e == p.targets[i - |p.kept|])
      && (CountNewer(candidates, e.mtime, false) <= keepCount ==> i < |p.kept| && e == p.kept[i])
  {
    var p := SelectTargets(candidates, keepCount);
    RetentionByAge(p.kept + p.targets, candidates, keepCount, i);
  }
}
