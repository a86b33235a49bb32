/**
Rolling archives. One rotation lists the archive files in whatever order the directory gives
them, sorts them, and renames each to the next number, the oldest first; then the log itself
becomes archive 0.
*/
module Rotater {
  import opened Common
  import opened ArrayList

  /** What a log file held when it was rotated. */
  type Log = int

  /** The numbered archive files of a log, and the log file itself. */
  class Directory {
    var base: Log
    var archives: map<int, Log>
    ghost var lost: seq<Log>        // what renames have overwritten

    constructor (base: Log)
      ensures archives == map[] && this.base == base && lost == []
    {
      this.base := base;
      archives := map[];
      lost := [];
    }

    method Unlink(i: int)
      requires i in archives
      modifies `archives
      ensures archives == old(archives) - {i}
    {
      archives := archives - {i};
    }

    /** A rename onto another archive overwrites it; one onto itself does nothing. */
    method Rename(i: int, j: int)
      requires i in archives
      modifies `archives, `lost
      ensures archives == (old(archives) - {i})[j := old(archives)[i]]
      ensures lost == old(lost) + if j in old(archives) && j != i then [old(archives)[j]] else []
    {
      lost := lost + if j in archives && j != i then [archives[j]] else [];
      archives := (archives - {i})[j := archives[i]];
    }

    /** The log becomes an archive, and a new log is begun. */
    method RenameBase(j: int, fresh_log: Log)
      modifies this
      ensures archives == old(archives)[j := old(base)] && base == fresh_log
      ensures lost == old(lost) + if j in old(archives) then [old(archives)[j]] else []
    {
      lost := lost + if j in archives then [archives[j]] else [];
      archives := archives[j := base];
      base := fresh_log;
    }
  }

  /** The archives 0, 1, ... hold these logs, and there are no others. */
  ghost predicate Holds(archives: map<int, Log>, logs: seq<Log>) {
    && (forall i | i in archives :: 0 <= i < |logs|)
    && (forall i | 0 <= i < |logs| :: i in archives && archives[i] == logs[i])
  }

  /** One rotation: the log first, then the former archives, as many as may be kept. */
  function Rotated(logs: seq<Log>, base: Log, max: nat): seq<Log> {
    [base] + if max > 0 && |logs| >= max then logs[..max - 1] else logs
  }

  /** The archives after rotating logs away one after the other, the latest last. */
  function AfterAll(history: seq<Log>, max: nat): seq<Log> {
    if history == [] then []
    else Rotated(AfterAll(history[..|history| - 1], max), history[|history| - 1], max)
  }

  lemma LatestRotated(history: seq<Log>, before: seq<Log>, max: nat)
    requires history != [] && |before| == if max > 0 && |history| - 1 > max then max else |history| - 1
    requires forall i | 0 <= i < |before| :: before[i] == history[|history| - 2 - i]
    ensures var logs := Rotated(before, history[|history| - 1], max);
      && |logs| == (if max > 0 && |history| > max then max else |history|)
      && forall i | 0 <= i < |logs| :: logs[i] == history[|history| - 1 - i]
  {
  }

  /** Archive i is the log rotated away i rotations before the latest; as many are kept as may be. */
  lemma {:induction false} ArchivesAreLatest(history: seq<Log>, max: nat)
    ensures var logs := AfterAll(history, max);
      && |logs| == (if max > 0 && |history| > max then max else |history|)
      && forall i | 0 <= i < |logs| :: logs[i] == history[|history| - 1 - i]
  {
    if history != [] {
      var n := |history| - 1;
      var before := AfterAll(history[..n], max);
      ArchivesAreLatest(history[..n], max);
      LatestRotated(history, before, max);
    }
  }

  // ---------------------------------------------------------------- listing

  /** A listing of the directory: each archive once, in any order. */
  predicate Lists(listing: seq<int>, archives: map<int, Log>) {
    && (forall i | i in archives :: i in listing)
    && (forall i | i in listing :: i in archives)
    && forall i, j | 0 <= i < j < |listing| :: listing[i] != listing[j]
  }

  function Files(listing: seq<int>): (files: seq<Slot>)
    ensures |files| == |listing| && forall i | 0 <= i < |listing| :: files[i] == File(listing[i])
  {
    seq(|listing|, i requires 0 <= i < |listing| => File(listing[i]))
  }

  ghost function Bag(listing: seq<int>, i: nat): multiset<Slot>
    requires i <= |listing|
  {
    multiset(Files(listing)[..i])
  }

  lemma BagStep(listing: seq<int>, i: nat)
    requires i < |listing|
    ensures Bag(listing, i + 1) == Bag(listing, i) + multiset{File(listing[i])}
  {
    assert Files(listing)[..i + 1] == Files(listing)[..i] + [Files(listing)[i]];
  }

  lemma BagEnds(listing: seq<int>)
    ensures Bag(listing, 0) == multiset{} && Bag(listing, |listing|) == multiset(Files(listing))
  {
    assert Files(listing)[..|listing|] == Files(listing);
  }

  method AddSorted(files: List, f: Slot)
    requires files.Valid() && Sorted(files.Contents()) && f.File?
    modifies files, files.data
    ensures files.Valid() && (files.data == old(files.data) || fresh(files.data))
    ensures Sorted(files.Contents()) && multiset(files.Contents()) == old(multiset(files.Contents())) + multiset{f}
  {
    SortedInsert(files.Contents(), f);
    files.SortAdd(f);
  }

  /** The listed files, in the order of their numbers. */
  method AddArchiveFiles(listing: seq<int>) returns (files: List)
    ensures fresh(files) && fresh(files.data) && files.Valid()
    ensures Sorted(files.Contents()) && multiset(files.Contents()) == multiset(Files(listing))
  {
    files := new List();
    BagEnds(listing);
    hide Files, Bag;
    var i := 0;
    while i < |listing|
      invariant i <= |listing| && fresh(files.data) && files.Valid()
      invariant Sorted(files.Contents()) && multiset(files.Contents()) == Bag(listing, i)
    {
      BagStep(listing, i);
      AddSorted(files, File(listing[i]));
      i := i + 1;
    }
  }

  lemma Twice(files: seq<Slot>, i: nat, j: nat)
    requires i < j < |files|
    ensures files[i] == files[j] ==> multiset(files)[files[i]] >= 2
  {
    assert files == files[..j] + [files[j]] + files[j + 1..];
    assert files[i] in files[..j];
  }

  lemma FilesFront(listing: seq<int>)
    requires listing != []
    ensures multiset(Files(listing)) == multiset{File(listing[0])} + multiset(Files(listing[1..]))
  {
    assert Files(listing) == [File(listing[0])] + Files(listing[1..]);
  }

  lemma NotListed(listing: seq<int>, i: int)
    requires i !in listing
    ensures multiset(Files(listing))[File(i)] == 0
  {
    assert File(i) !in Files(listing);
  }

  lemma {:induction false} NotTwice(listing: seq<int>, f: Slot)
    requires forall i, j | 0 <= i < j < |listing| :: listing[i] != listing[j]
    ensures multiset(Files(listing))[f] <= 1
  {
    if listing == [] {
      assert Files(listing) == [];
    } else {
      FilesFront(listing);
      NotListed(listing[1..], listing[0]);
      NotTwice(listing[1..], f);
    }
  }

  // ---------------------------------------------------------------- rolling

  /** The archives' numbers, in the order of the list. */
  function Numbers(files: seq<Slot>): (numbers: seq<int>)
    requires Filled(files)
    ensures |numbers| == |files| && forall i | 0 <= i < |files| :: numbers[i] == files[i].index
  {
    seq(|files|, i requires 0 <= i < |files| => files[i].index)
  }

  ghost predicate Rising(numbers: seq<int>) {
    forall i, j | 0 <= i < j < |numbers| :: numbers[i] < numbers[j]
  }

  /** One of the numbers from place lo to place hi - 1. */
  predicate Among(numbers: seq<int>, lo: int, hi: int, x: int) {
    exists j | lo <= j < hi && 0 <= j < |numbers| :: numbers[j] == x
  }

  /** The numbers are those of the archives. */
  ghost predicate Names(numbers: seq<int>, archives: map<int, Log>) {
    && Rising(numbers)
    && (forall x | x in archives :: Among(numbers, 0, |numbers|, x))
    && forall j | 0 <= j < |numbers| :: numbers[j] in archives
  }

  /** How many of n archives are renamed, the others being removed. */
  function Moved(n: nat, max: nat): (m: nat)
    ensures m <= n
  {
    if max == 0 || n < max then n else max - 1
  }

  /** What the archive at place k of the list holds when its turn comes to be renamed. */
  ghost function Held(numbers: seq<int>, was: map<int, Log>, m: nat, k: nat): Log
    requires Names(numbers, was) && k < m <= |numbers|
    decreases m - k
  {
    if k + 2 <= numbers[k] <= m then Held(numbers, was, m, numbers[k] - 1) else was[numbers[k]]
  }

  /** What the renames of the places from k on overwrite, the last place first. */
  ghost function Overwritten(numbers: seq<int>, was: map<int, Log>, m: nat, k: nat): seq<Log>
    requires Names(numbers, was) && m <= |numbers|
    decreases m - k
  {
    if k >= m then []
    else Overwritten(numbers, was, m, k + 1) + if Among(numbers, 0, k, k + 1) then [was[k + 1]] else []
  }

  /** No place that is renamed after place x - 1 has number x. */
  predicate Stays(numbers: seq<int>, x: nat) {
    x == 0 || !Among(numbers, 0, x - 1, x)
  }

  /** The archives when all have been rolled and the log has become archive 0. */
  ghost function Rolled(numbers: seq<int>, was: map<int, Log>, base: Log, m: nat): map<int, Log>
    requires Names(numbers, was) && m <= |numbers|
  {
    map x | 0 <= x <= m && Stays(numbers, x) ::
      if x == 0 then base else Held(numbers, was, m, x - 1)
  }

  /** Number x has been written by the rename of place x - 1, and not been moved on since. */
  predicate Landed(numbers: seq<int>, m: nat, i: int, x: int) {
    i + 2 <= x <= m && !Among(numbers, i + 1, x - 1, x)
  }

  /** Whether number x is an archive, and what it holds, when the places from i + 1 on have been rolled. */
  ghost predicate RolledAt(archives: map<int, Log>, numbers: seq<int>, was: map<int, Log>, m: nat, i: int, x: int)
    requires Names(numbers, was) && m <= |numbers| && i >= -1
  {
    && (x in archives <==> Among(numbers, 0, i + 1, x) || Landed(numbers, m, i, x))
    && (x in archives ==>
        if i + 2 <= x <= m then archives[x] == Held(numbers, was, m, x - 1) else x in was && archives[x] == was[x])
  }

  /** The archives at the places from i + 1 on have been renamed or removed, the others not yet. */
  ghost predicate Rolling(archives: map<int, Log>, numbers: seq<int>, was: map<int, Log>, m: nat, i: int)
    requires Names(numbers, was) && m <= |numbers| && i >= -1
  {
    forall x :: RolledAt(archives, numbers, was, m, i, x)
  }

  lemma RollingBegins(numbers: seq<int>, was: map<int, Log>, m: nat)
    requires Names(numbers, was) && m <= |numbers|
    ensures Rolling(was, numbers, was, m, |numbers| - 1) && Overwritten(numbers, was, m, |numbers|) == []
  {
  }

  /** What the rename of place i overwrites, when these are the archives. */
  function LostAt(archives: map<int, Log>, numbers: seq<int>, m: nat, i: nat): seq<Log>
    requires i < |numbers|
  {
    if i < m && i + 1 in archives && i + 1 != numbers[i] then [archives[i + 1]] else []
  }

  /** The archives after one turn of the rolling loop. */
  function Turned(archives: map<int, Log>, numbers: seq<int>, m: nat, i: nat): map<int, Log>
    requires i < |numbers| && numbers[i] in archives
  {
    var rest := archives - {numbers[i]};
    if i < m then rest[i + 1 := archives[numbers[i]]] else rest
  }

  lemma HasNumber(archives: map<int, Log>, numbers: seq<int>, was: map<int, Log>, m: nat, i: nat)
    requires Names(numbers, was) && m <= |numbers| && i < |numbers| && Rolling(archives, numbers, was, m, i)
    ensures numbers[i] in archives
    ensures archives[numbers[i]] == if i < m then Held(numbers, was, m, i) else was[numbers[i]]
  {
    assert RolledAt(archives, numbers, was, m, i, numbers[i]);
  }

  /** Of the places from lo on, place lo comes first; of those up to i, place i comes last. */
  lemma AmongEnds(numbers: seq<int>, lo: nat, hi: nat, x: int)
    requires lo < hi <= |numbers|
    ensures Among(numbers, lo, hi, x) <==> numbers[lo] == x || Among(numbers, lo + 1, hi, x)
    ensures Among(numbers, lo, hi, x) <==> Among(numbers, lo, hi - 1, x) || numbers[hi - 1] == x
  {
  }

  lemma LandedTurn(numbers: seq<int>, m: nat, i: nat, x: int)
    requires i < |numbers| && m <= |numbers|
    ensures Landed(numbers, m, i - 1, x) <==>
      if x == i + 1 then i < m else Landed(numbers, m, i, x) && numbers[i] != x
  {
    if i + 2 <= x <= m {
      AmongEnds(numbers, i, x - 1, x);
    }
  }

  lemma NotBefore(numbers: seq<int>, i: nat)
    requires Rising(numbers) && i < |numbers|
    ensures !Among(numbers, 0, i, numbers[i])
  {
  }

  lemma TurnRollsAt(archives: map<int, Log>, numbers: seq<int>, was: map<int, Log>, m: nat, i: nat, x: int)
    requires Names(numbers, was) && m <= |numbers| && i < |numbers| && RolledAt(archives, numbers, was, m, i, x)
    requires numbers[i] in archives
    requires archives[numbers[i]] == if i < m then Held(numbers, was, m, i) else was[numbers[i]]
    ensures RolledAt(Turned(archives, numbers, m, i), numbers, was, m, i - 1, x)
  {
    var now := Turned(archives, numbers, m, i);
    AmongEnds(numbers, 0, i + 1, x);
    NotBefore(numbers, i);
    LandedTurn(numbers, m, i, x);
    assert Landed(numbers, m, i, x) ==> i + 2 <= x <= m;
    hide Held, Among, Landed, Names;
    if x == i + 1 && i < m {
      assert now[x] == Held(numbers, was, m, i);
    } else {
      assert x in now <==> x in archives && x != numbers[i];
      assert x in now ==> now[x] == archives[x];
    }
  }

  lemma TurnRolls(archives: map<int, Log>, numbers: seq<int>, was: map<int, Log>, m: nat, i: nat)
    requires Names(numbers, was) && m <= |numbers| && i < |numbers| && Rolling(archives, numbers, was, m, i)
    ensures numbers[i] in archives && Rolling(Turned(archives, numbers, m, i), numbers, was, m, i - 1)
  {
    HasNumber(archives, numbers, was, m, i);
    var now, before := Turned(archives, numbers, m, i), i - 1;
    forall x ensures RolledAt(now, numbers, was, m, before, x) {
      assert RolledAt(archives, numbers, was, m, i, x);
      TurnRollsAt(archives, numbers, was, m, i, x);
    }
  }

  /** The rename of place i overwrites another archive exactly if one of the places before has number i + 1. */
  lemma TurnOverwrites(archives: map<int, Log>, numbers: seq<int>, was: map<int, Log>, m: nat, i: nat)
    requires Names(numbers, was) && m <= |numbers| && i < |numbers| && Rolling(archives, numbers, was, m, i)
    ensures Overwritten(numbers, was, m, i) ==
      Overwritten(numbers, was, m, i + 1) + LostAt(archives, numbers, m, i)
  {
    assert RolledAt(archives, numbers, was, m, i, i + 1);
    AmongEnds(numbers, 0, i + 1, i + 1);
    assert !Among(numbers, 0, i, numbers[i]);
  }

  lemma RolledAll(archives: map<int, Log>, numbers: seq<int>, was: map<int, Log>, base: Log, m: nat)
    requires Names(numbers, was) && m <= |numbers| && Rolling(archives, numbers, was, m, -1)
    ensures 0 !in archives && archives[0 := base] == Rolled(numbers, was, base, m)
  {
    var now := Rolled(numbers, was, base, m);
    assert RolledAt(archives, numbers, was, m, -1, 0);
    forall x ensures x in archives[0 := base] <==> x in now {
      assert RolledAt(archives, numbers, was, m, -1, x);
    }
    forall x | x in now ensures archives[0 := base][x] == now[x] {
      assert RolledAt(archives, numbers, was, m, -1, x);
    }
  }

  /** One turn: the archive at place i is removed when there would be too many, and else renamed. */
  method RollOne(dir: Directory, file: Slot, i: nat, max: nat, ghost numbers: seq<int>)
    requires i < |numbers| && file == File(numbers[i]) && numbers[i] in dir.archives
    modifies dir
    ensures dir.base == old(dir.base)
    ensures dir.archives == Turned(old(dir.archives), numbers, Moved(|numbers|, max), i)
    ensures dir.lost == old(dir.lost) + LostAt(old(dir.archives), numbers, Moved(|numbers|, max), i)
  {
    if max > 0 && i >= max - 1 {
      dir.Unlink(file.index);
    } else {
      dir.Rename(file.index, i + 1);
    }
  }

  /** Rolls the archives up by one place in the list, the last first, and makes the log archive 0. */
  method RollFiles(dir: Directory, files: List, max: nat, fresh_log: Log)
    requires files.Valid() && Filled(files.Contents()) && Names(Numbers(files.Contents()), dir.archives)
    modifies dir
    ensures var numbers, was := Numbers(files.Contents()), old(dir.archives);
      var m := Moved(|numbers|, max);
      && dir.base == fresh_log
      && dir.archives == Rolled(numbers, was, old(dir.base), m)
      && dir.lost == old(dir.lost) + Overwritten(numbers, was, m, 0)
  {
    ghost var contents, numbers, was := files.Contents(), Numbers(files.Contents()), dir.archives;
    ghost var m := Moved(|numbers|, max);
    var i := files.len - 1;
    RollingBegins(numbers, was, m);
    hide Rolling, Names, Rolled, Overwritten, Turned, LostAt, Moved;
    while i > -1
      invariant -1 <= i < files.len && dir.base == old(dir.base)
      invariant files.Valid() && files.Contents() == contents
      invariant Rolling(dir.archives, numbers, was, m, i)
      invariant dir.lost == old(dir.lost) + Overwritten(numbers, was, m, i + 1)
    {
      TurnRolls(dir.archives, numbers, was, m, i);
      TurnOverwrites(dir.archives, numbers, was, m, i);
      Assoc(old(dir.lost), Overwritten(numbers, was, m, i + 1), LostAt(dir.archives, numbers, m, i));
      var file := files.data[i];
      assert file == contents[i];
      RollOne(dir, file, i, max, numbers);
      i := i - 1;
    }
    RolledAll(dir.archives, numbers, was, dir.base, m);
    dir.RenameBase(0, fresh_log);
  }

  // ---------------------------------------------------------------- what is overwritten

  /** Place j is to be written over before its turn comes: its number is the target of a later place. */
  predicate InTheWay(numbers: seq<int>, m: nat, j: int) {
    0 <= j < |numbers| && j + 2 <= numbers[j] <= m
  }

  lemma {:induction false} OverwritesFrom(numbers: seq<int>, was: map<int, Log>, m: nat, k: nat)
    requires Names(numbers, was) && k <= m <= |numbers|
    ensures Overwritten(numbers, was, m, k) == [] <==>
      forall j {:trigger InTheWay(numbers, m, j)} | InTheWay(numbers, m, j) :: numbers[j] <= k
    decreases m - k
  {
    if k < m {
      hide Names, Among, Held;
      OverwritesFrom(numbers, was, m, k + 1);
      AmongInTheWay(numbers, m, k);
    }
  }

  lemma AmongInTheWay(numbers: seq<int>, m: nat, k: nat)
    requires k < m
    ensures Among(numbers, 0, k, k + 1) <==> exists j :: InTheWay(numbers, m, j) && numbers[j] == k + 1
  {
    if Among(numbers, 0, k, k + 1) {
      var j :| 0 <= j < k && 0 <= j < |numbers| && numbers[j] == k + 1;
      assert InTheWay(numbers, m, j);
    }
  }

  /** Rolling overwrites no archive exactly if none is in the way. */
  lemma OverwritesExactly(numbers: seq<int>, was: map<int, Log>, m: nat)
    requires Names(numbers, was) && m <= |numbers|
    ensures Overwritten(numbers, was, m, 0) == [] <==> forall j :: !InTheWay(numbers, m, j)
  {
    OverwritesFrom(numbers, was, m, 0);
  }

  /** With none in the way every archive that is kept goes up by one place, and nothing else is there. */
  lemma RolledInOrder(numbers: seq<int>, was: map<int, Log>, base: Log, m: nat)
    requires Names(numbers, was) && m <= |numbers| && forall j | 0 <= j < m :: !InTheWay(numbers, m, j)
    ensures var now := Rolled(numbers, was, base, m);
      && (forall x | x in now :: 0 <= x <= m)
      && (forall x | 0 <= x <= m :: x in now && now[x] == if x == 0 then base else was[numbers[x - 1]])
  {
    forall x | 0 < x <= m ensures Stays(numbers, x) {
      assert forall j | 0 <= j < x - 1 :: numbers[j] == x ==> InTheWay(numbers, m, j);
    }
    forall k: nat | k < m ensures Held(numbers, was, m, k) == was[numbers[k]] {
      assert !InTheWay(numbers, m, k);
    }
  }

  /** Archives 2 and 5: the one at 5 is renamed to 2 while 2 is still there, and what was in 2 is lost. */
  lemma TwoAndFive(a: Log, b: Log, base: Log)
    ensures var was := map[2 := a, 5 := b];
      && Names([2, 5], was) && InTheWay([2, 5], 2, 0)
      && Overwritten([2, 5], was, Moved(2, 0), 0) == [a]
      && Rolled([2, 5], was, base, Moved(2, 0)) == map[0 := base, 1 := b]
  {
    var numbers, was := [2, 5], map[2 := a, 5 := b];
    assert numbers[0] == 2 && numbers[1] == 5;
    assert Overwritten(numbers, was, 2, 1) == Overwritten(numbers, was, 2, 2) + [was[2]];
    assert Held(numbers, was, 2, 0) == Held(numbers, was, 2, 1) == b;
  }

  /** The archives' numbers are those from lo to hi - 1. */
  ghost predicate Span(archives: map<int, Log>, lo: int, hi: int) {
    forall x :: x in archives <==> lo <= x < hi
  }

  lemma {:induction false} SpanSize(archives: map<int, Log>, lo: int, hi: int)
    requires Span(archives, lo, hi) && lo <= hi
    ensures |archives| == hi - lo
    decreases hi - lo
  {
    if lo < hi {
      SpanSize(archives - {hi - 1}, lo, hi - 1);
      assert archives == (archives - {hi - 1})[hi - 1 := archives[hi - 1]];
    } else {
      assert forall x :: x !in archives;
      assert |archives| != 0 ==> exists x :: x in archives;
    }
  }

  /** Numbers without a gap are in their places. */
  lemma NumbersInPlace(numbers: seq<int>, archives: map<int, Log>, lo: int, hi: int)
    requires Names(numbers, archives) && Span(archives, lo, hi) && lo <= hi
    ensures |numbers| == hi - lo && forall i | 0 <= i < |numbers| :: numbers[i] == lo + i
  {
    PlacesUpTo(numbers, archives, lo, hi, hi - lo);
  }

  lemma {:induction false} PlacesUpTo(numbers: seq<int>, archives: map<int, Log>, lo: int, hi: int, n: nat)
    requires Names(numbers, archives) && Span(archives, lo, hi) && lo + n <= hi
    ensures n <= |numbers| && forall i | 0 <= i < n :: numbers[i] == lo + i
    ensures n < |numbers| ==> lo + n <= numbers[n] < hi
  {
    if n > 0 {
      PlacesUpTo(numbers, archives, lo, hi, n - 1);
      assert lo + n - 1 in archives;
      assert Among(numbers, 0, |numbers|, lo + n - 1);
      var j :| 0 <= j < |numbers| && numbers[j] == lo + n - 1;
      assert j == n - 1;
    }
    assert n < |numbers| ==> numbers[n] in archives && (n > 0 ==> numbers[n - 1] < numbers[n]);
  }

  /** The sorted list of the files names the archives, each number once. */
  lemma ListedNames(files: seq<Slot>, listing: seq<int>, archives: map<int, Log>)
    requires Sorted(files) && multiset(files) == multiset(Files(listing)) && Lists(listing, archives)
    ensures Filled(files) && Names(Numbers(files), archives)
  {
    var numbers := Numbers(files);
    forall i | 0 <= i < |files| ensures numbers[i] in archives {
      assert files[i] in multiset(files);
      assert files[i] in Files(listing);
      var j :| 0 <= j < |listing| && Files(listing)[j] == files[i];
      assert listing[j] in listing;
    }
    forall i, j | 0 <= i < j < |files| ensures numbers[i] < numbers[j] {
      NotTwice(listing, files[i]);
      Twice(files, i, j);
    }
    forall x | x in archives ensures Among(numbers, 0, |numbers|, x) {
      assert x in listing;
      var j :| 0 <= j < |listing| && listing[j] == x;
      assert Files(listing)[j] in multiset(Files(listing));
      assert File(x) in files;
      var i :| 0 <= i < |files| && files[i] == File(x);
      assert numbers[i] == x;
    }
  }

  // ---------------------------------------------------------------- sequence mode

  /** How many of n archives are removed, the lowest numbers. */
  function Dropped(n: nat, max: nat): (d: nat)
    ensures d <= n
  {
    if max > 0 && n > max then n - max else 0
  }

  /** The number that the log becomes. */
  function NextNumber(numbers: seq<int>): int {
    if numbers == [] then 0
    else
      var n, last := |numbers| - 1, numbers[|numbers| - 1];
      (if n > last then n else last) + 1
  }

  /** The lowest archives have been removed, up to place i. */
  ghost predicate Dropping(archives: map<int, Log>, numbers: seq<int>, was: map<int, Log>, i: nat) {
    && (forall x :: x in archives <==> x in was && !Among(numbers, 0, i, x))
    && (forall x | x in archives && x in was :: archives[x] == was[x])
  }

  /** What is left, and the log with a number above all of theirs. */
  ghost predicate Sequenced(archives: map<int, Log>, numbers: seq<int>, was: map<int, Log>, base: Log, max: nat) {
    var kept, j := numbers[Dropped(|numbers|, max)..], NextNumber(numbers);
    && Names(kept + [j], archives) && j in archives && archives[j] == base
    && forall x | x in kept :: x in was && x in archives && archives[x] == was[x]
  }

  lemma DropOne(archives: map<int, Log>, numbers: seq<int>, was: map<int, Log>, i: nat)
    requires Names(numbers, was) && i < |numbers| && Dropping(archives, numbers, was, i)
    ensures numbers[i] in archives && Dropping(archives - {numbers[i]}, numbers, was, i + 1)
  {
    NotBefore(numbers, i);
    forall x ensures Among(numbers, 0, i + 1, x) <==> Among(numbers, 0, i, x) || x == numbers[i] {
      AmongEnds(numbers, 0, i + 1, x);
    }
  }

  lemma NextIsHighest(numbers: seq<int>, i: nat)
    requires Rising(numbers) && i < |numbers|
    ensures numbers[i] < NextNumber(numbers)
  {
  }

  /** A number above all others, put behind what is left. */
  lemma NamesAfter(archives: map<int, Log>, numbers: seq<int>, was: map<int, Log>, d: nat, j: int, base: Log)
    requires Names(numbers, was) && d <= |numbers| && Dropping(archives, numbers, was, d)
    requires forall i | 0 <= i < |numbers| :: numbers[i] < j
    ensures Names(numbers[d..] + [j], archives[j := base])
  {
    var all, after := numbers[d..] + [j], archives[j := base];
    forall x | x in after ensures Among(all, 0, |all|, x) {
      if x == j {
        assert all[|all| - 1] == j;
      } else {
        assert Among(numbers, 0, |numbers|, x);
        var i :| 0 <= i < |numbers| && numbers[i] == x;
        assert i >= d;
        assert all[i - d] == x;
      }
    }
    forall i | 0 <= i < |all| ensures all[i] in after {
      if i < |all| - 1 {
        NotBeforeDropped(numbers, d, d + i);
      }
    }
  }

  lemma NotBeforeDropped(numbers: seq<int>, d: nat, i: nat)
    requires Rising(numbers) && d <= i < |numbers|
    ensures !Among(numbers, 0, d, numbers[i])
  {
  }

  lemma DroppedAll(archives: map<int, Log>, numbers: seq<int>, was: map<int, Log>, base: Log, max: nat)
    requires Names(numbers, was) && Dropping(archives, numbers, was, Dropped(|numbers|, max))
    ensures var j := NextNumber(numbers);
      j !in archives && Sequenced(archives[j := base], numbers, was, base, max)
  {
    var d, j := Dropped(|numbers|, max), NextNumber(numbers);
    forall i | 0 <= i < |numbers| ensures numbers[i] < j {
      NextIsHighest(numbers, i);
    }
    NamesAfter(archives, numbers, was, d, j, base);
    forall i | d <= i < |numbers| ensures numbers[i] in archives && numbers[i] != j {
      NotBeforeDropped(numbers, d, i);
    }
    hide Dropped, NextNumber, Among;
  }

  /** Removes the lowest archives, as many as are too many, and gives the log the next number. */
  method SeqFiles(dir: Directory, files: List, max: nat, fresh_log: Log)
    requires files.Valid() && Filled(files.Contents()) && Names(Numbers(files.Contents()), dir.archives)
    modifies dir
    ensures dir.base == fresh_log && dir.lost == old(dir.lost)
    ensures Sequenced(dir.archives, Numbers(files.Contents()), old(dir.archives), old(dir.base), max)
  {
    ghost var contents, numbers, was := files.Contents(), Numbers(files.Contents()), dir.archives;
    ghost var d := Dropped(|numbers|, max);
    hide Names, Dropping, Sequenced, Among;
    NoneDropped(numbers, was);
    var i := 0;
    while i < files.len
      invariant 0 <= i <= files.len && dir.base == old(dir.base) && dir.lost == old(dir.lost)
      invariant files.Valid() && files.Contents() == contents
      invariant Dropping(dir.archives, numbers, was, if i < d then i else d)
    {
      if max > 0 && i < files.len - max {
        DropOne(dir.archives, numbers, was, i);
        var file := files.data[i];
        assert file == contents[i];
        dir.Unlink(file.index);
      }
      i := i + 1;
    }
    var j := Following(files);
    DroppedAll(dir.archives, numbers, was, dir.base, max);
    dir.RenameBase(j, fresh_log);
  }

  method Following(files: List) returns (j: int)
    requires files.Valid() && Filled(files.Contents())
    ensures j == NextNumber(Numbers(files.Contents()))
  {
    j := 0;
    if files.len > 0 {
      var file := files.data[files.len - 1];
      assert file == files.Contents()[files.len - 1];
      j := (if files.len - 1 > file.index then files.len - 1 else file.index) + 1;
    }
  }

  lemma NoneDropped(numbers: seq<int>, was: map<int, Log>)
    ensures Dropping(was, numbers, was, 0)
  {
  }

  /** The archives are the latest logs, each under its place in the history; one more than the maximum may be kept. */
  ghost predicate InSequence(archives: map<int, Log>, history: seq<Log>, max: nat) {
    var lo := Lowest(|history|, max);
    Span(archives, lo, |history|) && forall i | lo <= i < |history| :: i in archives && archives[i] == history[i]
  }

  /** The lowest number of the archives. */
  function Lowest(n: nat, max: nat): (lo: nat)
    ensures lo <= n
  {
    if max > 0 && n > max + 1 then n - max - 1 else 0
  }

  lemma NextInSequence(numbers: seq<int>, lo: nat, hi: nat, max: nat)
    requires |numbers| == hi - lo && (forall i | 0 <= i < |numbers| :: numbers[i] == lo + i) && lo == Lowest(hi, max)
    ensures var d := Dropped(|numbers|, max); var kept := numbers[d..];
      && NextNumber(numbers) == hi && lo + d == Lowest(hi + 1, max)
      && |kept| == hi - lo - d && forall i | 0 <= i < |kept| :: kept[i] == lo + d + i
  {
  }

  lemma SequencedIsNext(archives: map<int, Log>, numbers: seq<int>, was: map<int, Log>, history: seq<Log>, base: Log,
      max: nat)
    requires Names(numbers, was) && InSequence(was, history, max) && Sequenced(archives, numbers, was, base, max)
    ensures InSequence(archives, history + [base], max)
  {
    hide Names, Dropped, NextNumber, Lowest, Among, Span;
    var lo, hi := Lowest(|history|, max), |history|;
    NumbersInPlace(numbers, was, lo, hi);
    NextInSequence(numbers, lo, hi, max);
    var low := Lowest(hi + 1, max);
    var kept := numbers[Dropped(|numbers|, max)..];
    ConsecutiveSpan(kept + [hi], archives, low);
    forall i | low <= i < hi ensures i in archives && archives[i] == was[i] {
      assert kept[i - low] == i;
    }
  }

  lemma ConsecutiveSpan(numbers: seq<int>, archives: map<int, Log>, lo: int)
    requires Names(numbers, archives) && forall i | 0 <= i < |numbers| :: numbers[i] == lo + i
    ensures Span(archives, lo, lo + |numbers|)
  {
    forall x ensures x in archives <==> lo <= x < lo + |numbers| {
      assert lo <= x < lo + |numbers| ==> numbers[x - lo] == x;
    }
  }

  // ---------------------------------------------------------------- one rotation

  /**
  One rotation of any archives, whatever order the directory lists them in: it overwrites none
  exactly if none is in the way, and then each that is kept goes up by one place.
  */
  method Roll(dir: Directory, listing: seq<int>, max: nat, fresh_log: Log) returns (ghost numbers: seq<int>)
    requires Lists(listing, dir.archives)
    modifies dir
    ensures Names(numbers, old(dir.archives)) && dir.base == fresh_log
    ensures var m := Moved(|numbers|, max);
      && dir.archives == Rolled(numbers, old(dir.archives), old(dir.base), m)
      && dir.lost == old(dir.lost) + Overwritten(numbers, old(dir.archives), m, 0)
      && (dir.lost == old(dir.lost) <==> forall j :: !InTheWay(numbers, m, j))
  {
    var files := AddArchiveFiles(listing);
    ListedNames(files.Contents(), listing, dir.archives);
    numbers := Numbers(files.Contents());
    OverwritesExactly(numbers, dir.archives, Moved(|numbers|, max));
    RollFiles(dir, files, max, fresh_log);
  }

  /** Archives numbered from 0 on are never in the way; rolling them is the rotation of their logs. */
  lemma RolledIsRotated(numbers: seq<int>, was: map<int, Log>, logs: seq<Log>, base: Log, max: nat)
    requires Names(numbers, was) && Holds(was, logs)
    ensures var m := Moved(|numbers|, max);
      Holds(Rolled(numbers, was, base, m), Rotated(logs, base, max)) && Overwritten(numbers, was, m, 0) == []
  {
    hide Names, Rolled, Overwritten, Moved, Among;
    var m := Moved(|numbers|, max);
    NumbersInPlace(numbers, was, 0, |logs|);
    OverwritesExactly(numbers, was, m);
    RolledInOrder(numbers, was, base, m);
    InOrderIsRotated(Rolled(numbers, was, base, m), was, logs, base, max);
  }

  /** Each log one place up, and the newest at 0. */
  lemma InOrderIsRotated(now: map<int, Log>, was: map<int, Log>, logs: seq<Log>, base: Log, max: nat)
    requires Holds(was, logs) && forall x | x in now :: 0 <= x <= Moved(|logs|, max)
    requires forall x | 0 <= x <= Moved(|logs|, max) :: x in now && now[x] == if x == 0 then base else was[x - 1]
    ensures Holds(now, Rotated(logs, base, max))
  {
    assert |Rotated(logs, base, max)| == Moved(|logs|, max) + 1;
  }

  lemma RolledIsNext(archives: map<int, Log>, numbers: seq<int>, was: map<int, Log>, history: seq<Log>, base: Log,
      max: nat)
    requires Names(numbers, was) && Holds(was, AfterAll(history, max))
    requires archives == Rolled(numbers, was, base, Moved(|numbers|, max))
    ensures Holds(archives, AfterAll(history + [base], max))
    ensures Overwritten(numbers, was, Moved(|numbers|, max), 0) == []
  {
    RolledIsRotated(numbers, was, AfterAll(history, max), base, max);
    assert (history + [base])[..|history|] == history;
  }

  /** The same in sequence mode, which overwrites nothing. */
  method Sequence(dir: Directory, listing: seq<int>, max: nat, fresh_log: Log) returns (ghost numbers: seq<int>)
    requires Lists(listing, dir.archives)
    modifies dir
    ensures Names(numbers, old(dir.archives)) && dir.base == fresh_log && dir.lost == old(dir.lost)
    ensures Sequenced(dir.archives, numbers, old(dir.archives), old(dir.base), max)
  {
    var files := AddArchiveFiles(listing);
    ListedNames(files.Contents(), listing, dir.archives);
    numbers := Numbers(files.Contents());
    SeqFiles(dir, files, max, fresh_log);
  }

  class Rotater {
    const maxCount: nat
    const sequence: bool
    const dir: Directory
    ghost var history: seq<Log>     // the logs rotated away, the latest last

    ghost predicate Valid()
      reads this, dir
    {
      if sequence then InSequence(dir.archives, history, maxCount)
      else Holds(dir.archives, AfterAll(history, maxCount))
    }

    /** Begins with no archives. */
    constructor (maxCount: nat, sequence: bool, base: Log)
      ensures Valid() && history == [] && this.maxCount == maxCount && this.sequence == sequence
      ensures fresh(dir) && dir.base == base
    {
      this.maxCount := maxCount;
      this.sequence := sequence;
      this.dir := new Directory(base);
      history := [];
    }

    /** One rotation, whatever order the directory lists its files in. */
    method Rotate(listing: seq<int>, fresh_log: Log)
      requires Valid() && Lists(listing, dir.archives)
      modifies `history, dir
      ensures Valid() && history == old(history) + [old(dir.base)] && dir.base == fresh_log
      ensures dir.lost == old(dir.lost)
    {
      ghost var was, base, numbers := dir.archives, dir.base, [];
      if sequence {
        numbers := Sequence(dir, listing, maxCount, fresh_log);
        SequencedIsNext(dir.archives, numbers, was, history, base, maxCount);
      } else {
        numbers := Roll(dir, listing, maxCount, fresh_log);
        RolledIsNext(dir.archives, numbers, was, history, base, maxCount);
      }
      history := history + [base];
    }

    /** In rolling mode archive i is the log rotated away i rotations before the latest. */
    lemma Latest(i: int)
      requires Valid() && !sequence
      ensures i in dir.archives <==> 0 <= i < (if maxCount > 0 && |history| > maxCount then maxCount else |history|)
      ensures i in dir.archives ==> dir.archives[i] == history[|history| - 1 - i]
    {
      ArchivesAreLatest(history, maxCount);
    }

    /** In sequence mode archive i is the log of rotation i. */
    lemma LatestInSequence(i: int)
      requires Valid() && sequence
      ensures i in dir.archives <==> Lowest(|history|, maxCount) <= i < |history|
      ensures i in dir.archives ==> dir.archives[i] == history[i]
    {
    }

    /** As many archives as there were logs, up to the maximum, and in sequence mode up to one more. */
    lemma Kept()
      requires Valid()
      ensures var most := if sequence then maxCount + 1 else maxCount;
        |dir.archives| == if maxCount > 0 && |history| > most then most else |history|
    {
      if sequence {
        SpanSize(dir.archives, Lowest(|history|, maxCount), |history|);
      } else {
        ArchivesAreLatest(history, maxCount);
        SpanSize(dir.archives, 0, |AfterAll(history, maxCount)|);
      }
    }
  }
}
