/**
 Lease-based leader election on the database path of app/core/scheduling/leader_election.py.

 An instance reads its clock first and runs its SQL statement later, so the protocol is a
 sequence of executed statements, each carrying the time captured for it. Times are whole
 clock ticks.
 */
module LeaderElection {
  import opened Options

  datatype Row = Row(leader: nat, acquiredAt: int, expiresAt: int)

  /** INSERT ... ON CONFLICT DO UPDATE ... WHERE expired or already ours. */
  function UpsertRow(row: Option<Row>, who: nat, now: int, ttl: nat): Option<Row> {
    if row.None? || row.value.expiresAt < now || row.value.leader == who
    then Some(Row(who, now, now + ttl)) else row
  }

  /** UPDATE ... WHERE the row is ours. */
  function ExtendRow(row: Option<Row>, who: nat, now: int, ttl: nat): Option<Row> {
    if row.Some? && row.value.leader == who then Some(row.value.(expiresAt := now + ttl)) else row
  }

  // ---------- The objects ----------

  class SchedulerLeaderTable {
    var row: Option<Row>

    method Upsert(who: nat, now: int, ttl: nat)
      modifies this
      ensures row == UpsertRow(old(row), who, now, ttl)
    {
      if row.None? {
        row := Some(Row(who, now, now + ttl));
      } else if row.value.expiresAt < now || row.value.leader == who {
        row := Some(Row(who, now, now + ttl));
      }
    }

    method Extend(who: nat, now: int, ttl: nat)
      modifies this
      ensures row == ExtendRow(old(row), who, now, ttl)
    {
      if row.Some? && row.value.leader == who {
        row := Some(row.value.(expiresAt := now + ttl));
      }
    }
  }

  class Elector {
    const id: nat
    var isLeader: bool

    constructor (id: nat)
      ensures this.id == id && !isLeader
    {
      this.id, isLeader := id, false;
    }

    /** The select after the upsert; other statements may have run in between. */
    method ReadBack(table: SchedulerLeaderTable) returns (leader: bool)
      modifies this
      ensures leader == isLeader == (table.row.Some? && table.row.value.leader == id)
    {
      isLeader := table.row.Some? && table.row.value.leader == id;
      leader := isLeader;
    }

    /** Run without interruption: the answer says whether the row is ours afterwards. */
    method TryAcquire(table: SchedulerLeaderTable, now: int, ttl: nat) returns (leader: bool)
      modifies this, table
      ensures table.row == UpsertRow(old(table.row), id, now, ttl)
      ensures leader == isLeader == (table.row.Some? && table.row.value.leader == id)
      ensures leader <==> old(table.row).None? || old(table.row).value.expiresAt < now || old(table.row).value.leader == id
    {
      table.Upsert(id, now, ttl);
      leader := ReadBack(table);
    }

    /** A leader extends its row; the return value of the source is not modelled. */
    method Renew(table: SchedulerLeaderTable, now: int, ttl: nat)
      modifies table
      ensures table.row == if isLeader then ExtendRow(old(table.row), id, now, ttl) else old(table.row)
    {
      if isLeader {
        table.Extend(id, now, ttl);
      }
    }
  }

  // ---------- Executed statements ----------

  datatype Statement =
    | Acquire(who: nat, now: int)
    | Renewal(who: nat, now: int)

  function Execute(row: Option<Row>, st: Statement, ttl: nat): Option<Row> {
    match st
    case Acquire(who, now) => UpsertRow(row, who, now, ttl)
    case Renewal(who, now) => ExtendRow(row, who, now, ttl)
  }

  /** The statement wrote the row: it grants or extends a lease from its captured time. */
  predicate Effective(row: Option<Row>, st: Statement) {
    match st
    case Acquire(who, now) => row.None? || row.value.expiresAt < now || row.value.leader == who
    case Renewal(who, _) => row.Some? && row.value.leader == who
  }

  /** Any interleaving: the statements in execution order, whatever times they carry. */
  predicate IsRun(rows: seq<Option<Row>>, sts: seq<Statement>, ttl: nat) {
    |rows| == |sts| + 1 && forall i :: 0 <= i < |sts| ==> rows[i + 1] == Execute(rows[i], sts[i], ttl)
  }

  /** Each instance's effective statements were executed in the order of their captured times. */
  predicate InCaptureOrder(rows: seq<Option<Row>>, sts: seq<Statement>)
    requires |rows| == |sts| + 1
  {
    forall i, j :: 0 <= i < j < |sts| && sts[i].who == sts[j].who && Effective(rows[i], sts[i]) && Effective(rows[j], sts[j])
      ==> sts[i].now <= sts[j].now
  }

  /** The lease granted at step `i` is over, or still recorded, in the row after `n` steps. */
  predicate Respected(row: Option<Row>, st: Statement, ttl: nat) {
    && row.Some?
    && (row.value.leader == st.who ==> row.value.expiresAt >= st.now + ttl)
    && (row.value.leader != st.who ==> row.value.expiresAt > st.now + ttl + ttl)
  }

  /** The row's lease was granted by an effective statement of the run. */
  predicate GrantedBy(rows: seq<Option<Row>>, sts: seq<Statement>, ttl: nat, n: nat, k: nat)
    requires |rows| == |sts| + 1 && n <= |sts|
  {
    k < n && Effective(rows[k], sts[k]) && rows[n].Some?
    && rows[n].value.leader == sts[k].who && rows[n].value.expiresAt == sts[k].now + ttl
  }

  lemma {:induction false} LeaseHasGrant(rows: seq<Option<Row>>, sts: seq<Statement>, ttl: nat, n: nat, i: nat)
    requires IsRun(rows, sts, ttl) && i < n <= |sts| && Effective(rows[i], sts[i])
    ensures exists k: nat :: GrantedBy(rows, sts, ttl, n, k)
    decreases n
  {
    if Effective(rows[n - 1], sts[n - 1]) {
      assert GrantedBy(rows, sts, ttl, n, n - 1);
    } else {
      LeaseHasGrant(rows, sts, ttl, n - 1, i);
      var k: nat :| GrantedBy(rows, sts, ttl, n - 1, k);
      assert GrantedBy(rows, sts, ttl, n, k);
    }
  }

  lemma {:induction false} LeaseIsRespected(rows: seq<Option<Row>>, sts: seq<Statement>, ttl: nat, n: nat, i: nat)
    requires IsRun(rows, sts, ttl) && InCaptureOrder(rows, sts)
    requires i < n <= |sts| && Effective(rows[i], sts[i])
    ensures Respected(rows[n], sts[i], ttl)
    decreases n
  {
    if i < n - 1 {
      LeaseIsRespected(rows, sts, ttl, n - 1, i);
      LeaseHasGrant(rows, sts, ttl, n - 1, i);
      var k: nat :| GrantedBy(rows, sts, ttl, n - 1, k);
      assert rows[n] == Execute(rows[n - 1], sts[n - 1], ttl);
    }
  }

  /**
   In every interleaving of acquisitions and renewals by any number of instances in which each
   instance's statements run in capture order, leases of different instances never overlap: an
   acquisition by another instance carries a time strictly after the lease's end.
   */
  lemma {:induction false} LeasesNeverOverlap(rows: seq<Option<Row>>, sts: seq<Statement>, ttl: nat, i: nat, j: nat)
    requires IsRun(rows, sts, ttl) && InCaptureOrder(rows, sts)
    requires i < j < |sts| && sts[j].Acquire? && sts[i].who != sts[j].who
    requires Effective(rows[i], sts[i]) && Effective(rows[j], sts[j])
    ensures sts[j].now > sts[i].now + ttl
  {
    LeaseIsRespected(rows, sts, ttl, j, i);
    LeaseIsRespected(rows, sts, ttl, j + 1, i);
  }

  /** A clock that never goes back, read and used in one step, is a special case. */
  lemma {:induction false} AtomicClockIsInOrder(rows: seq<Option<Row>>, sts: seq<Statement>)
    requires |rows| == |sts| + 1 && forall i, j :: 0 <= i <= j < |sts| ==> sts[i].now <= sts[j].now
    ensures InCaptureOrder(rows, sts)
  {
  }

  // ---------- Out of order ----------

  /** Statement `j` acquires the row at a time inside the lease that statement `i` gave another instance. */
  predicate OverlapAt(rows: seq<Option<Row>>, sts: seq<Statement>, ttl: nat, i: nat, j: nat)
    requires |rows| == |sts| + 1
  {
    && i < j < |sts| && sts[j].Acquire? && sts[i].who != sts[j].who
    && Effective(rows[i], sts[i]) && Effective(rows[j], sts[j]) && sts[j].now <= sts[i].now + ttl
  }

  /** An acquisition by an instance that has executed nothing so far. */
  predicate Newcomer(sts: seq<Statement>, st: Statement) {
    st.Acquire? && forall k :: 0 <= k < |sts| ==> sts[k].who != st.who
  }

  /** After `n` statements a newcomer can acquire, and its lease overlaps that of statement `i`. */
  ghost predicate Overlappable(rows: seq<Option<Row>>, sts: seq<Statement>, ttl: nat, n: nat, i: nat, st: Statement)
    requires |rows| == |sts| + 1
  {
    && n <= |sts| && Newcomer(sts[..n], st)
    && OverlapAt(rows[..n + 1] + [Execute(rows[n], st, ttl)], sts[..n] + [st], ttl, i, n)
  }

  /** A run cut short and continued with one statement is a run. */
  lemma {:induction false} Continued(rows: seq<Option<Row>>, sts: seq<Statement>, ttl: nat, n: nat, st: Statement)
    requires IsRun(rows, sts, ttl) && n <= |sts|
    ensures IsRun(rows[..n + 1] + [Execute(rows[n], st, ttl)], sts[..n] + [st], ttl)
  {
  }

  /** A newcomer does not disturb the capture order of the others. */
  lemma {:induction false} NewcomerKeepsOrder(rows: seq<Option<Row>>, sts: seq<Statement>, ttl: nat, n: nat,
                                              st: Statement)
    requires IsRun(rows, sts, ttl) && InCaptureOrder(rows, sts) && n <= |sts| && Newcomer(sts[..n], st)
    ensures InCaptureOrder(rows[..n + 1] + [Execute(rows[n], st, ttl)], sts[..n] + [st])
  {
    var rows', sts' := rows[..n + 1] + [Execute(rows[n], st, ttl)], sts[..n] + [st];
    hide Effective;
    assert forall k :: 0 <= k < n ==> sts'[k] == sts[..n][k] && sts'[k].who != st.who;
    forall i, j | 0 <= i < j < |sts'| && sts'[i].who == sts'[j].who && Effective(rows'[i], sts'[i]) && Effective(rows'[j], sts'[j])
      ensures sts'[i].now <= sts'[j].now
    {
      assert j < n ==> rows'[i] == rows[i] && rows'[j] == rows[j] && sts'[i] == sts[i] && sts'[j] == sts[j];
    }
  }

  /** An instance number that no statement uses. */
  function Unused(sts: seq<Statement>): (who: nat)
    ensures forall k :: 0 <= k < |sts| ==> sts[k].who < who
  {
    if sts == [] then 0
    else
      var n := |sts| - 1;
      var rest := Unused(sts[..n]);
      if sts[n].who < rest then rest else sts[n].who + 1
  }

  /** Out of order, the statement executed last lets a newcomer in before the earlier lease is over. */
  lemma {:induction false} OutOfOrderIsOverlapped(rows: seq<Option<Row>>, sts: seq<Statement>, ttl: nat, i: nat, j: nat)
    requires IsRun(rows, sts, ttl) && i < j < |sts| && sts[i].who == sts[j].who && sts[j].now < sts[i].now
    requires Effective(rows[i], sts[i]) && Effective(rows[j], sts[j])
    ensures Overlappable(rows, sts, ttl, j + 1, i, Acquire(Unused(sts), sts[i].now + ttl))
  {
    var st := Acquire(Unused(sts), sts[i].now + ttl);
    assert rows[j + 1] == Execute(rows[j], sts[j], ttl);
    assert rows[j + 1].value.expiresAt == sts[j].now + ttl;
    assert Effective(rows[j + 1], st);
  }

  /**
   Capture order is the exact condition: in every run, each instance's effective statements were
   executed in the order of their captured times if and only if at no point of the run a newcomer
   can acquire a lease that overlaps one given before. Tasks of one process that share an instance
   can execute out of order.
   */
  lemma {:induction false} OverlapExactlyWhenOutOfOrder(rows: seq<Option<Row>>, sts: seq<Statement>, ttl: nat)
    requires IsRun(rows, sts, ttl)
    ensures InCaptureOrder(rows, sts) <==>
            forall n: nat, i: nat, st :: !Overlappable(rows, sts, ttl, n, i, st)
  {
    if InCaptureOrder(rows, sts) {
      forall n: nat, i: nat, st ensures !Overlappable(rows, sts, ttl, n, i, st) {
        if n <= |sts| && Newcomer(sts[..n], st) {
          NewcomerIsTooLate(rows, sts, ttl, n, i, st);
        }
      }
    } else {
      var i: nat, j: nat :| i < j < |sts| && sts[i].who == sts[j].who && Effective(rows[i], sts[i])
                            && Effective(rows[j], sts[j]) && sts[j].now < sts[i].now;
      OutOfOrderIsOverlapped(rows, sts, ttl, i, j);
    }
  }

  lemma {:induction false} NewcomerIsTooLate(rows: seq<Option<Row>>, sts: seq<Statement>, ttl: nat, n: nat, i: nat,
                                             st: Statement)
    requires IsRun(rows, sts, ttl) && InCaptureOrder(rows, sts) && n <= |sts| && Newcomer(sts[..n], st)
    ensures !OverlapAt(rows[..n + 1] + [Execute(rows[n], st, ttl)], sts[..n] + [st], ttl, i, n)
  {
    var rows', sts' := rows[..n + 1] + [Execute(rows[n], st, ttl)], sts[..n] + [st];
    Continued(rows, sts, ttl, n, st);
    NewcomerKeepsOrder(rows, sts, ttl, n, st);
    hide IsRun;
    hide InCaptureOrder;
    hide Effective;
    if i < n && Effective(rows'[i], sts'[i]) && Effective(rows'[n], sts'[n]) {
      assert sts[..n][i].who != st.who;
      LeasesNeverOverlap(rows', sts', ttl, i, n);
    }
  }

  // ---------- Reading back ----------

  /**
   An instance that finds itself in the row holds the lease of one of its own statements, and in
   capture order nobody else acquires before that lease is over, whatever ran in between.
   */
  lemma {:induction false} ReadBackIsSound(rows: seq<Option<Row>>, sts: seq<Statement>, ttl: nat, n: nat, who: nat)
    requires IsRun(rows, sts, ttl) && InCaptureOrder(rows, sts) && rows[0] == None
    requires n < |rows| && rows[n].Some? && rows[n].value.leader == who
    ensures exists k: nat :: GrantedBy(rows, sts, ttl, n, k)
    ensures forall j :: n <= j < |sts| && sts[j].Acquire? && sts[j].who != who && Effective(rows[j], sts[j]) ==>
              sts[j].now > rows[n].value.expiresAt
  {
    RowWasGranted(rows, sts, ttl, n);
    var k: nat :| GrantedBy(rows, sts, ttl, n, k);
    forall j: nat | n <= j < |sts| && sts[j].Acquire? && sts[j].who != who && Effective(rows[j], sts[j])
      ensures sts[j].now > rows[n].value.expiresAt
    {
      LeasesNeverOverlap(rows, sts, ttl, k, j);
    }
  }

  lemma {:induction false} RowWasGranted(rows: seq<Option<Row>>, sts: seq<Statement>, ttl: nat, n: nat)
    requires IsRun(rows, sts, ttl) && rows[0] == None && n < |rows| && rows[n].Some?
    ensures exists k: nat :: GrantedBy(rows, sts, ttl, n, k)
    decreases n
  {
    assert rows[n] == Execute(rows[n - 1], sts[n - 1], ttl);
    if Effective(rows[n - 1], sts[n - 1]) {
      assert GrantedBy(rows, sts, ttl, n, n - 1);
    } else {
      RowWasGranted(rows, sts, ttl, n - 1);
      var k: nat :| GrantedBy(rows, sts, ttl, n - 1, k);
      assert GrantedBy(rows, sts, ttl, n, k);
    }
  }
}
