/**
 `_validate_chain` of scripts/rewrite_alembic_revisions.py: local checks on the parsed
 migration files, and the global linear order they amount to.

 A file is represented by its name and by what the two assignment patterns find in it.
 */
module MigrationChain {
  import opened Options

  datatype DownRevision = NoAssignment | NoneLiteral | Target(id: string)

  datatype MigrationFile = MigrationFile(name: string, revision: Option<string>, down: DownRevision)

  datatype ChainError =
    | MissingRevision(file: string)
    | MissingDownRevision(file: string)
    | DuplicateRevision(id: string)
    | FilenameMismatch(id: string, file: string)
    | MissingTarget(target: string, id: string)
    | WrongRootCount(count: nat)
    | WrongHeadCount(count: nat)
    | CycleDetected(id: string)
    | UnreachableRevisions(ids: set<string>)

  /** `revisions`: the down revision of every known revision. */
  type Table = map<string, Option<string>>

  function Down(t: Table, id: string): Option<string> {
    if id in t then t[id] else None
  }

  // ---------- What the local checks say ----------

  predicate Parsed(f: MigrationFile) {
    f.revision.Some? && f.down != NoAssignment
  }

  function DownOf(f: MigrationFile): Option<string> {
    if f.down.Target? then Some(f.down.id) else None
  }

  /** The table after the loading loop: the first file of each revision wins. */
  function Load(files: seq<MigrationFile>): Table {
    if files == [] then map[]
    else
      var f := files[|files| - 1];
      var t := Load(files[..|files| - 1]);
      if Parsed(f) && f.revision.value !in t then t[f.revision.value := DownOf(f)] else t
  }

  predicate CleanFile(files: seq<MigrationFile>, i: nat)
    requires i < |files|
  {
    && Parsed(files[i])
    && files[i].name == files[i].revision.value + ".py"
    && forall j :: 0 <= j < i ==> files[j].revision != files[i].revision
  }

  /** Every file parses, is named after its revision, and no revision occurs twice. */
  predicate CleanFiles(files: seq<MigrationFile>) {
    forall i :: 0 <= i < |files| ==> CleanFile(files, i)
  }

  predicate AllTargetsKnown(t: Table) {
    forall id :: id in t && t[id].Some? ==> t[id].value in t
  }

  predicate IsRoot(t: Table, id: string) {
    id in t && t[id] == None
  }

  predicate IsHead(t: Table, id: string) {
    id in t && forall other :: other in t ==> t[other] != Some(id)
  }

  /** Following down revisions from `id`, there is nothing further after exactly `n` moves. */
  predicate EndsAfter(t: Table, id: string, n: nat)
    decreases n
  {
    if n == 0 then Down(t, id) == None
    else Down(t, id).Some? && EndsAfter(t, Down(t, id).value, n - 1)
  }

  ghost predicate Ends(t: Table, id: string) {
    exists n :: EndsAfter(t, id, n)
  }

  ghost predicate OneRoot(t: Table) {
    exists r :: IsRoot(t, r) && forall x :: IsRoot(t, x) ==> x == r
  }

  ghost predicate OneHead(t: Table) {
    exists h :: IsHead(t, h) && forall x :: IsHead(t, x) ==> x == h
  }

  ghost predicate NoCycle(t: Table) {
    forall id :: id in t ==> Ends(t, id)
  }

  ghost predicate LocalChecks(t: Table) {
    AllTargetsKnown(t) && OneRoot(t) && OneHead(t) && NoCycle(t)
  }

  // ---------- The global order ----------

  predicate DistinctIds(ids: seq<string>) {
    forall i, j :: 0 <= i < j < |ids| ==> ids[i] != ids[j]
  }

  /** `order` lists every revision exactly once, from the root upward, each on top of the previous one. */
  predicate IsChain(t: Table, order: seq<string>) {
    && order != [] && DistinctIds(order)
    && (forall i :: 0 <= i < |order| ==> order[i] in t)
    && (forall id :: id in t ==> id in order)
    && t[order[0]] == None
    && forall i :: 0 < i < |order| ==> t[order[i]] == Some(order[i - 1])
  }

  lemma {:induction false} EndsAfterIsUnique(t: Table, id: string, n: nat, m: nat)
    requires EndsAfter(t, id, n) && EndsAfter(t, id, m)
    ensures n == m
    decreases n
  {
    if n > 0 && m > 0 {
      EndsAfterIsUnique(t, Down(t, id).value, n - 1, m - 1);
    }
  }

  /** The revisions below `id`, lowest first, ending with `id` itself. */
  ghost function Below(t: Table, id: string, n: nat): (r: seq<string>)
    requires EndsAfter(t, id, n)
    ensures |r| == n + 1 && r[n] == id
    decreases n
  {
    if n == 0 then [id] else Below(t, Down(t, id).value, n - 1) + [id]
  }

  lemma {:induction false} BelowFacts(t: Table, id: string, n: nat)
    requires EndsAfter(t, id, n) && AllTargetsKnown(t) && id in t
    ensures var r := Below(t, id, n);
            && (forall i :: 0 <= i <= n ==> r[i] in t && EndsAfter(t, r[i], i))
            && t[r[0]] == None
            && (forall i :: 0 < i <= n ==> t[r[i]] == Some(r[i - 1]))
            && DistinctIds(r)
    decreases n
  {
    var r := Below(t, id, n);
    if n > 0 {
      BelowFacts(t, Down(t, id).value, n - 1);
    }
    forall i, j | 0 <= i < j <= n ensures r[i] != r[j] {
      if r[i] == r[j] {
        EndsAfterIsUnique(t, r[i], i, j);
      }
    }
  }

  lemma {:induction false} DistinctFits(ids: seq<string>, s: set<string>)
    requires DistinctIds(ids) && forall i :: 0 <= i < |ids| ==> ids[i] in s
    ensures |ids| <= |s|
    decreases |ids|
  {
    if ids != [] {
      var n := |ids| - 1;
      DistinctFits(ids[..n], s - {ids[n]});
    }
  }

  /** Counting: a revision cannot have more revisions below it than there are. */
  lemma {:induction false} DepthIsBounded(t: Table, id: string, n: nat)
    requires EndsAfter(t, id, n) && AllTargetsKnown(t) && id in t
    ensures n < |t.Keys|
  {
    BelowFacts(t, id, n);
    DistinctFits(Below(t, id, n), t.Keys);
  }

  /** A revision missing from the chain below the head would have ever deeper ones above it. */
  lemma {:induction false} NothingBesideTheChain(t: Table, head: string, n: nat, x: string, d: nat)
    requires AllTargetsKnown(t) && IsHead(t, head) && EndsAfter(t, head, n)
    requires forall h :: IsHead(t, h) ==> h == head
    requires forall id :: id in t ==> Ends(t, id)
    requires x in t && EndsAfter(t, x, d)
    ensures x in Below(t, head, n)
    decreases |t.Keys| - d
  {
    var r := Below(t, head, n);
    BelowFacts(t, head, n);
    if x != head {
      assert !IsHead(t, x);
      var y :| y in t && t[y] == Some(x);
      assert EndsAfter(t, y, d + 1);
      DepthIsBounded(t, y, d + 1);
      NothingBesideTheChain(t, head, n, y, d + 1);
      var i :| 0 <= i < |r| && r[i] == y;
      assert i > 0 && r[i - 1] == x;
    } else {
      assert r[n] == head;
    }
  }

  lemma {:induction false} LocalChecksGiveChain(t: Table)
    requires LocalChecks(t)
    ensures exists order :: IsChain(t, order)
  {
    var head :| IsHead(t, head) && forall x :: IsHead(t, x) ==> x == head;
    assert Ends(t, head);
    var n :| EndsAfter(t, head, n);
    BelowFacts(t, head, n);
    forall id | id in t ensures id in Below(t, head, n) {
      assert Ends(t, id);
      var d :| EndsAfter(t, id, d);
      NothingBesideTheChain(t, head, n, id, d);
    }
    assert IsChain(t, Below(t, head, n));
  }

  lemma {:induction false} ChainPositions(t: Table, order: seq<string>, i: nat)
    requires IsChain(t, order) && i < |order|
    ensures EndsAfter(t, order[i], i)
    decreases i
  {
    if i > 0 {
      ChainPositions(t, order, i - 1);
    }
  }

  lemma {:induction false} ChainMember(t: Table, order: seq<string>, i: nat)
    requires IsChain(t, order) && i < |order|
    ensures Ends(t, order[i])
    ensures t[order[i]].Some? ==> t[order[i]].value in t
    ensures IsRoot(t, order[i]) <==> i == 0
    ensures IsHead(t, order[i]) <==> i == |order| - 1
  {
    ChainPositions(t, order, i);
    if i + 1 < |order| {
      assert t[order[i + 1]] == Some(order[i]);
    } else {
      forall other | other in t ensures t[other] != Some(order[i]) {
        var j :| 0 <= j < |order| && order[j] == other;
        assert j > 0 ==> order[j - 1] != order[i];
      }
    }
  }

  lemma {:induction false} ChainMemberId(t: Table, order: seq<string>, id: string)
    requires IsChain(t, order) && id in t
    ensures Ends(t, id)
    ensures t[id].Some? ==> t[id].value in t
    ensures IsRoot(t, id) <==> id == order[0]
    ensures IsHead(t, id) <==> id == order[|order| - 1]
  {
    var i :| 0 <= i < |order| && order[i] == id;
    ChainMember(t, order, i);
  }

  lemma {:induction false} ChainGivesLocalChecks(t: Table, order: seq<string>)
    requires IsChain(t, order)
    ensures LocalChecks(t)
  {
    var root, head := order[0], order[|order| - 1];
    assert root in t && head in t && forall x :: IsRoot(t, x) || IsHead(t, x) ==> x in t;
    hide IsChain;
    hide IsRoot;
    hide IsHead;
    hide Ends;
    forall id | id in t
      ensures Ends(t, id)
      ensures t[id].Some? ==> t[id].value in t
      ensures IsRoot(t, id) <==> id == root
      ensures IsHead(t, id) <==> id == head
    {
      ChainMemberId(t, order, id);
    }
    assert IsRoot(t, root) && forall x :: IsRoot(t, x) ==> x == root;
    assert IsHead(t, head) && forall x :: IsHead(t, x) ==> x == head;
  }

  /** The local checks amount to one linear order. */
  lemma {:induction false} ChainExactlyWhenChecksPass(t: Table)
    ensures LocalChecks(t) <==> exists order :: IsChain(t, order)
  {
    if LocalChecks(t) {
      LocalChecksGiveChain(t);
    }
    if order :| IsChain(t, order) {
      ChainGivesLocalChecks(t, order);
    }
  }

  lemma {:induction false} ChainPositionsAgree(t: Table, a: seq<string>, b: seq<string>, i: nat)
    requires IsChain(t, a) && IsChain(t, b) && i < |a|
    ensures i < |b| && b[i] == a[i]
  {
    var j :| 0 <= j < |b| && b[j] == a[i];
    ChainPositions(t, a, i);
    ChainPositions(t, b, j);
    EndsAfterIsUnique(t, a[i], i, j);
  }

  /** There is at most one such order. */
  lemma {:induction false} ChainIsUnique(t: Table, a: seq<string>, b: seq<string>)
    requires IsChain(t, a) && IsChain(t, b)
    ensures a == b
  {
    ChainPositionsAgree(t, a, b, |a| - 1);
    ChainPositionsAgree(t, b, a, |b| - 1);
    forall i | 0 <= i < |a| ensures a[i] == b[i] {
      ChainPositionsAgree(t, a, b, i);
    }
  }

  // ---------- The validator ----------

  ghost function IdSet(ids: seq<string>): set<string> {
    set id | id in ids
  }

  ghost function Targets(t: Table): set<string> {
    set id | id in t && t[id].Some? :: t[id].value
  }

  lemma {:induction false} LoadStep(files: seq<MigrationFile>, i: nat)
    requires i < |files|
    ensures var t := Load(files[..i]);
            Load(files[..i + 1]) ==
            if Parsed(files[i]) && files[i].revision.value !in t then t[files[i].revision.value := DownOf(files[i])] else t
  {
    assert files[..i + 1][..i] == files[..i];
  }

  lemma {:induction false} LoadedIds(files: seq<MigrationFile>, n: nat, id: string)
    requires n <= |files|
    ensures id in Load(files[..n]) <==> exists j :: 0 <= j < n && Parsed(files[j]) && files[j].revision == Some(id)
    decreases n
  {
    if n > 0 {
      LoadStep(files, n - 1);
      LoadedIds(files, n - 1, id);
    }
  }

  predicate FileError(e: ChainError) {
    e.MissingRevision? || e.MissingDownRevision? || e.DuplicateRevision? || e.FilenameMismatch?
  }

  /** The loading loop. `order` is the insertion order of the table. */
  method LoadRevisions(files: seq<MigrationFile>)
    returns (t: Table, order: seq<string>, downTargets: set<string>, errors: seq<ChainError>)
    ensures t == Load(files)
    ensures DistinctIds(order) && IdSet(order) == t.Keys
    ensures downTargets == Targets(t)
    ensures errors == [] <==> CleanFiles(files)
    ensures forall e :: e in errors ==> FileError(e)
  {
    t, order, downTargets, errors := map[], [], {}, [];
    assert files[..|files|] == files;
    for i := 0 to |files|
      invariant t == Load(files[..i])
      invariant DistinctIds(order) && IdSet(order) == t.Keys
      invariant downTargets == Targets(t)
      invariant errors == [] <==> forall k :: 0 <= k < i ==> CleanFile(files, k)
      invariant forall e :: e in errors ==> FileError(e)
    {
      var f := files[i];
      LoadStep(files, i);
      ghost var sofar := errors;
      forall j | 0 <= j < i && sofar == [] ensures Parsed(files[j]) {
        assert CleanFile(files, j);
      }
      if f.revision == None {
        errors := errors + [MissingRevision(f.name)];
      } else if f.down == NoAssignment {
        errors := errors + [MissingDownRevision(f.name)];
      } else {
        LoadedIds(files, i, f.revision.value);
        if f.revision.value in t {
          errors := errors + [DuplicateRevision(f.revision.value)];
        } else {
          ghost var before := t;
          var revision := f.revision.value;
          assert revision !in IdSet(order);
          t := t[revision := DownOf(f)];
          order := order + [revision];
          if f.down.Target? {
            downTargets := downTargets + {f.down.id};
          }
          assert Targets(t) == Targets(before) + if f.down.Target? then {f.down.id} else {} by {
            forall x | x in Targets(before) ensures x in Targets(t) {
              var id :| id in before && before[id] == Some(x);
              assert id in t && t[id] == Some(x);
            }
            assert f.down.Target? ==> t[revision] == Some(f.down.id);
          }
          if f.name != revision + ".py" {
            errors := errors + [FilenameMismatch(revision, f.name)];
          }
        }
      }
      assert errors == [] <==> sofar == [] && CleanFile(files, i);
    }
  }

  method CheckTargets(t: Table, order: seq<string>) returns (errors: seq<ChainError>)
    requires IdSet(order) == t.Keys
    ensures errors == [] <==> AllTargetsKnown(t)
    ensures forall e :: e in errors ==> e.MissingTarget? && e.id in t && t[e.id] == Some(e.target) && e.target !in t
    ensures forall id :: id in t && t[id].Some? && t[id].value !in t ==> MissingTarget(t[id].value, id) in errors
  {
    errors := [];
    for i := 0 to |order|
      invariant errors == [] <==>
                forall k :: 0 <= k < i ==> order[k] in t && (t[order[k]].Some? ==> t[order[k]].value in t)
      invariant forall e :: e in errors ==> e.MissingTarget? && e.id in t && t[e.id] == Some(e.target) && e.target !in t
      invariant forall k :: 0 <= k < i && order[k] in t && t[order[k]].Some? && t[order[k]].value !in t ==>
                              MissingTarget(t[order[k]].value, order[k]) in errors
    {
      assert order[i] in IdSet(order);
      var down := t[order[i]];
      if down.Some? && down.value !in t {
        errors := errors + [MissingTarget(down.value, order[i])];
      }
    }
    assert forall id :: id in t ==> id in IdSet(order);
  }

  /** A list without repetition has one element iff exactly one thing is in it. */
  lemma {:induction false} SingletonList(ids: seq<string>)
    requires DistinctIds(ids)
    ensures |ids| == 1 ==> ids[0] in ids && forall y :: y in ids ==> y == ids[0]
    ensures forall x :: x in ids && (forall y :: y in ids ==> y == x) ==> |ids| == 1
  {
    assert |ids| > 1 ==> ids[0] in ids && ids[1] in ids;
  }

  method CollectRoots(t: Table, order: seq<string>) returns (roots: seq<string>)
    requires DistinctIds(order) && IdSet(order) == t.Keys
    ensures DistinctIds(roots) && forall x :: x in roots <==> IsRoot(t, x)
    ensures |roots| == 1 <==> OneRoot(t)
  {
    roots := [];
    for i := 0 to |order|
      invariant DistinctIds(roots)
      invariant forall x :: x in roots <==> x in order[..i] && IsRoot(t, x)
    {
      assert order[i] in IdSet(order) && order[i] !in order[..i];
      if t[order[i]] == None {
        roots := roots + [order[i]];
      }
      assert order[..i + 1] == order[..i] + [order[i]];
    }
    assert order[..|order|] == order;
    assert forall x :: x in t ==> x in IdSet(order);
    assert forall x :: x in roots <==> IsRoot(t, x);
    SingletonList(roots);
  }

  method CollectHeads(t: Table, order: seq<string>, downTargets: set<string>) returns (heads: seq<string>)
    requires DistinctIds(order) && IdSet(order) == t.Keys && downTargets == Targets(t)
    ensures DistinctIds(heads) && forall x :: x in heads <==> IsHead(t, x)
    ensures |heads| == 1 <==> OneHead(t)
  {
    heads := [];
    for i := 0 to |order|
      invariant DistinctIds(heads)
      invariant forall x :: x in heads <==> x in order[..i] && x !in downTargets
    {
      if order[i] !in downTargets {
        heads := heads + [order[i]];
      }
      assert order[..i + 1] == order[..i] + [order[i]];
    }
    assert order[..|order|] == order;
    forall x ensures x in heads <==> IsHead(t, x) {
      assert x in t <==> x in IdSet(order);
      if x in t && !IsHead(t, x) {
        var y :| y in t && t[y] == Some(x);
        assert x in Targets(t);
      }
    }
    SingletonList(heads);
  }

  /** The ids visited from `start`, in order, while every one of them has a down revision. */
  predicate WalkPath(t: Table, path: seq<string>, current: string) {
    && (forall i :: 0 <= i < |path| - 1 ==> Down(t, path[i]) == Some(path[i + 1]))
    && (path != [] ==> Down(t, path[|path| - 1]) == Some(current))
  }

  lemma {:induction false} WalkShortens(t: Table, path: seq<string>, current: string, i: nat, n: nat)
    requires WalkPath(t, path, current) && i <= |path|
    requires EndsAfter(t, if path == [] then current else path[0], n)
    ensures i <= n && EndsAfter(t, if i == |path| then current else path[i], n - i)
    decreases i
  {
    if i > 0 {
      WalkShortens(t, path, current, i - 1, n);
      assert Down(t, path[i - 1]) == Some(if i == |path| then current else path[i]);
    }
  }

  lemma {:induction false} WalkLengthens(t: Table, path: seq<string>, current: string, i: nat)
    requires WalkPath(t, path, current) && i <= |path| && Down(t, current) == None
    ensures EndsAfter(t, if i == |path| then current else path[i], |path| - i)
    decreases |path| - i
  {
    if i < |path| {
      WalkLengthens(t, path, current, i + 1);
    }
  }

  /** Coming back to an id already visited means that the walk never ends. */
  lemma {:induction false} RepeatNeverEnds(t: Table, path: seq<string>, current: string, start: string)
    requires WalkPath(t, path, current) && path != [] && path[0] == start && current in path
    ensures !Ends(t, start)
  {
    if Ends(t, start) {
      var n: nat :| EndsAfter(t, start, n);
      var j :| 0 <= j < |path| && path[j] == current;
      WalkShortens(t, path, current, |path|, n);
      WalkShortens(t, path, current, j, n);
      EndsAfterIsUnique(t, current, n - |path|, n - j);
    }
  }

  /** The ancestor walk: it terminates on every table, and reports a cycle iff there is no end. */
  method Walk(t: Table, start: string) returns (seen: set<string>, cycle: Option<string>)
    requires start in t
    ensures start in seen
    ensures AllTargetsKnown(t) ==> seen <= t.Keys
    ensures cycle.None? <==> Ends(t, start)
    ensures cycle.Some? ==> !Ends(t, cycle.value)
  {
    seen := {};
    var current := start;
    ghost var path: seq<string> := [];
    while true
      invariant seen == IdSet(path)
      invariant WalkPath(t, path, current)
      invariant path == [] ==> current == start
      invariant path != [] ==> path[0] == start
      invariant seen <= t.Keys
      invariant AllTargetsKnown(t) ==> current in t
      decreases t.Keys - seen
    {
      if current in seen {
        RepeatNeverEnds(t, path, current, start);
        ghost var j :| 0 <= j < |path| && path[j] == current;
        RepeatNeverEnds(t, path[j..], current, current);
        return seen, Some(current);
      }
      seen := seen + {current};
      var down := Down(t, current);
      if down == None {
        WalkLengthens(t, path, current, 0);
        return seen, None;
      }
      path := path + [current];
      current := down.value;
    }
  }

  method CheckWalks(t: Table, order: seq<string>) returns (visited: set<string>, errors: seq<ChainError>)
    requires IdSet(order) == t.Keys
    ensures t.Keys <= visited
    ensures AllTargetsKnown(t) ==> visited == t.Keys
    ensures errors == [] <==> NoCycle(t)
    ensures forall e :: e in errors ==> e.CycleDetected? && !Ends(t, e.id)
  {
    visited, errors := {}, [];
    for i := 0 to |order|
      invariant forall k :: 0 <= k < i ==> order[k] in visited
      invariant AllTargetsKnown(t) ==> visited <= t.Keys
      invariant errors == [] <==> forall k :: 0 <= k < i ==> Ends(t, order[k])
      invariant forall e :: e in errors ==> e.CycleDetected? && !Ends(t, e.id)
    {
      assert order[i] in IdSet(order);
      var seen, cycle := Walk(t, order[i]);
      if cycle.Some? {
        errors := errors + [CycleDetected(cycle.value)];
      }
      visited := visited + seen;
    }
    assert forall id :: id in t ==> id in IdSet(order);
  }

  /**
   The validator accepts exactly the file sets whose revisions form one linear chain from a
   single root to a single head, covering every revision once. The last check is redundant:
   it can fire only when a down revision is unknown, and then names no revision at all.
   */
  method ValidateChain(files: seq<MigrationFile>) returns (errors: seq<ChainError>)
    ensures errors == [] <==> CleanFiles(files) && exists order :: IsChain(Load(files), order)
    ensures forall e :: e in errors && e.UnreachableRevisions? ==> e.ids == {} && !AllTargetsKnown(Load(files))
  {
    hide IsChain;
    hide OneRoot;
    hide OneHead;
    hide NoCycle;
    hide Load;
    hide CleanFiles;
    hide Targets;
    var t, order, downTargets, loadErrors := LoadRevisions(files);
    var targetErrors := CheckTargets(t, order);
    errors := loadErrors + targetErrors;
    var roots := CollectRoots(t, order);
    if |roots| != 1 {
      errors := errors + [WrongRootCount(|roots|)];
    }
    var heads := CollectHeads(t, order, downTargets);
    if |heads| != 1 {
      errors := errors + [WrongHeadCount(|heads|)];
    }
    var visited, walkErrors := CheckWalks(t, order);
    errors := errors + walkErrors;
    if |visited| != |t| {
      errors := errors + [UnreachableRevisions(t.Keys - visited)];
    }
    ChainExactlyWhenChecksPass(t);
  }
}
