/** The escrow audit: the three economics checks as they are computed, and what they mean for
    the money when all three pass on the full task history. */
module EscrowAudit {
  import opened Text
  import opened Dicts
  import opened KeyedSums

  datatype TaskStatus = Initiated | InProgress | Completed | Refunded | Timeout | Failed | OtherTask(name: string)
  datatype PayStatus = Pending | Paid | Cancelled | OtherPay(name: string)

  /** A row of task_sessions; `caller` is the agent that pays. */
  datatype Task = Task(id: string, caller: string, status: TaskStatus, escrow: int)

  /** A row of transactions. */
  datatype Tx = Tx(taskId: string, isPayment: bool, status: PayStatus, amount: int)

  datatype Wallet = Wallet(id: string, owner: string, balance: int, reserved: int)

  // ---- what each check says ----------------------------------------------------------------

  function Payments(txs: seq<Tx>, id: string): (r: seq<Tx>) {
    if txs == [] then []
    else
      var last := txs[|txs| - 1];
      Payments(txs[..|txs| - 1], id) + if last.taskId == id && last.isPayment then [last] else []
  }

  /** The payment status a task status calls for; none for a status outside the table. */
  function Wanted(status: TaskStatus): (r: Option<PayStatus>) {
    match status
    case Initiated => Some(Pending)
    case InProgress => Some(Pending)
    case Completed => Some(Paid)
    case Refunded => Some(Cancelled)
    case Timeout => Some(Cancelled)
    case Failed => Some(Cancelled)
    case OtherTask(_) => None
  }

  predicate Follows(task: Task, pay: Tx) {
    (Wanted(task.status).Some? ==> pay.status == Wanted(task.status).value) && pay.amount == task.escrow
  }

  predicate OnePaymentEach(tasks: seq<Task>, txs: seq<Tx>) {
    forall i | 0 <= i < |tasks| :: |Payments(txs, tasks[i].id)| == 1
  }

  /** Tasks without exactly one payment are skipped here. */
  predicate StatusFollows(tasks: seq<Task>, txs: seq<Tx>) {
    forall i | 0 <= i < |tasks| && |Payments(txs, tasks[i].id)| == 1 :: Follows(tasks[i], Payments(txs, tasks[i].id)[0])
  }

  predicate Covered(w: Wallet, inflight: map<string, int>) {
    var expected := if w.id in inflight then inflight[w.id] else 0;
    w.reserved == expected && w.reserved >= 0 && w.balance >= w.reserved
  }

  predicate WalletsCovered(wallets: seq<Wallet>, inflight: map<string, int>) {
    forall i | 0 <= i < |wallets| :: Covered(wallets[i], inflight)
  }

  // ---- the checks as computed -----------------------------------------------------------------

  function Grouped(txs: seq<Tx>, id: string): (r: seq<Tx>) {
    if txs == [] then []
    else Grouped(txs[..|txs| - 1], id) + if txs[|txs| - 1].taskId == id then [txs[|txs| - 1]] else []
  }

  method GroupByTask(txs: seq<Tx>) returns (byTask: Dict<string, seq<Tx>>)
    ensures forall id :: GetOr(byTask, id, []) == Grouped(txs, id)
  {
    byTask := [];
    for i := 0 to |txs|
      invariant forall id :: GetOr(byTask, id, []) == Grouped(txs[..i], id)
    {
      assert txs[..i + 1][..i] == txs[..i];
      var key := txs[i].taskId;
      var group := GetOr(byTask, key, []) + [txs[i]];
      forall id ensures GetOr(Put(byTask, key, group), id, []) == Grouped(txs[..i + 1], id) {
        PutReads(byTask, key, group, id);
        assert id != key ==> Grouped(txs[..i], id) + [] == Grouped(txs[..i], id);
      }
      byTask := Put(byTask, key, group);
    }
    assert txs[..|txs|] == txs;
  }

  method PaymentsIn(group: seq<Tx>) returns (pays: seq<Tx>)
    ensures pays == OnlyPayments(group)
  {
    pays := [];
    for i := 0 to |group|
      invariant pays == OnlyPayments(group[..i])
    {
      assert group[..i + 1][..i] == group[..i];
      if group[i].isPayment { pays := pays + [group[i]]; }
    }
    assert group[..|group|] == group;
  }

  function OnlyPayments(group: seq<Tx>): (r: seq<Tx>) {
    if group == [] then []
    else OnlyPayments(group[..|group| - 1]) + if group[|group| - 1].isPayment then [group[|group| - 1]] else []
  }

  lemma {:induction false} GroupedPayments(txs: seq<Tx>, id: string)
    ensures OnlyPayments(Grouped(txs, id)) == Payments(txs, id)
  {
    if txs != [] {
      var n := |txs| - 1;
      GroupedPayments(txs[..n], id);
      var before := Grouped(txs[..n], id);
      if txs[n].taskId == id {
        assert (before + [txs[n]])[..|before|] == before;
      } else {
        assert before + [] == before;
      }
    }
  }

  method TaskChecks(tasks: seq<Task>, txs: seq<Tx>) returns (badCount: seq<string>, badState: seq<string>)
    ensures badCount == [] <==> OnePaymentEach(tasks, txs)
    ensures badState == [] <==> StatusFollows(tasks, txs)
  {
    hide Payments;
    var byTask := GroupByTask(txs);
    badCount, badState := [], [];
    for i := 0 to |tasks|
      invariant badCount == [] <==> forall k | 0 <= k < i :: |Payments(txs, tasks[k].id)| == 1
      invariant badState == []
           <==> forall k | 0 <= k < i && |Payments(txs, tasks[k].id)| == 1 :: Follows(tasks[k], Payments(txs, tasks[k].id)[0])
    {
      var task := tasks[i];
      var pays := PaymentsIn(GetOr(byTask, task.id, []));
      GroupedPayments(txs, task.id);
      assert pays == Payments(txs, task.id);
      if |pays| != 1 {
        badCount := badCount + [task.id];
      } else {
        var pay := pays[0];
        var want := Wanted(task.status);
        if want.Some? && pay.status != want.value { badState := badState + [task.id]; }
        if pay.amount != task.escrow { badState := badState + [task.id]; }
      }
    }
  }

  method WalletCheck(wallets: seq<Wallet>, inflight: map<string, int>) returns (badWallet: seq<string>)
    ensures badWallet == [] <==> WalletsCovered(wallets, inflight)
  {
    badWallet := [];
    for i := 0 to |wallets|
      invariant badWallet == [] <==> forall k | 0 <= k < i :: Covered(wallets[k], inflight)
    {
      var w := wallets[i];
      var expected := if w.id in inflight then inflight[w.id] else 0;
      if w.reserved != expected || w.reserved < 0 || w.balance < w.reserved {
        badWallet := badWallet + [w.id];
      }
    }
  }

  /** The three verdicts E01, E02 and E03. */
  method EconomicsChecks(tasks: seq<Task>, txs: seq<Tx>, wallets: seq<Wallet>, inflight: map<string, int>)
    returns (e01: bool, e02: bool, e03: bool)
    ensures e01 <==> OnePaymentEach(tasks, txs)
    ensures e02 <==> StatusFollows(tasks, txs)
    ensures e03 <==> WalletsCovered(wallets, inflight)
  {
    var badCount, badState := TaskChecks(tasks, txs);
    var badWallet := WalletCheck(wallets, inflight);
    e01, e02, e03 := badCount == [], badState == [], badWallet == [];
  }

  // ---- the database the audit reads --------------------------------------------------------------

  datatype Database = Database(tasks: seq<Task>, txs: seq<Tx>, wallets: seq<Wallet>, grants: set<string>)

  /** Tasks whose caller is a society agent, over the full history. */
  function SocietyTasks(tasks: seq<Task>, grants: set<string>): (r: seq<Task>)
    ensures forall t :: t in r <==> t in tasks && t.caller in grants
  {
    if tasks == [] then []
    else
      var last := tasks[|tasks| - 1];
      SocietyTasks(tasks[..|tasks| - 1], grants) + if last.caller in grants then [last] else []
  }

  function TaskIds(tasks: seq<Task>): (r: seq<string>)
    ensures |r| == |tasks| && forall i | 0 <= i < |r| :: r[i] == tasks[i].id
  {
    seq(|tasks|, i requires 0 <= i < |tasks| => tasks[i].id)
  }

  function TxsOf(txs: seq<Tx>, ids: seq<string>): (r: seq<Tx>)
    ensures forall t :: t in r <==> t in txs && t.taskId in ids
  {
    if txs == [] then []
    else
      var last := txs[|txs| - 1];
      TxsOf(txs[..|txs| - 1], ids) + if last.taskId in ids then [last] else []
  }

  function SocietyWallets(wallets: seq<Wallet>, grants: set<string>): (r: seq<Wallet>)
    ensures forall w :: w in r <==> w in wallets && w.owner in grants
  {
    if wallets == [] then []
    else
      var last := wallets[|wallets| - 1];
      SocietyWallets(wallets[..|wallets| - 1], grants) + if last.owner in grants then [last] else []
  }

  predicate TaskInFlight(t: Task) {
    t.status == Initiated || t.status == InProgress
  }

  /** What each task holds in escrow for its caller, and what each payment of a status moves for its task. */
  function Held(tasks: seq<Task>): (r: Entries)
    ensures |r| == |tasks| && forall i | 0 <= i < |r| :: r[i] == (tasks[i].caller, if TaskInFlight(tasks[i]) then tasks[i].escrow else 0)
  {
    seq(|tasks|, i requires 0 <= i < |tasks| => (tasks[i].caller, if TaskInFlight(tasks[i]) then tasks[i].escrow else 0))
  }

  function Amounts(txs: seq<Tx>, status: PayStatus): (r: Entries)
    ensures |r| == |txs| && forall i | 0 <= i < |r| :: r[i] == (txs[i].taskId, if txs[i].isPayment && txs[i].status == status then txs[i].amount else 0)
  {
    seq(|txs|, i requires 0 <= i < |txs| => (txs[i].taskId, if txs[i].isPayment && txs[i].status == status then txs[i].amount else 0))
  }

  /** The in-flight escrow by wallet id; a wallet whose owner has no task in flight has no row. */
  function InflightByWallet(db: Database): (r: map<string, int>)
    requires WellFormed(db)
  {
    map i | 0 <= i < |db.wallets| && (exists k | 0 <= k < |db.tasks| :: db.tasks[k].caller == db.wallets[i].owner && TaskInFlight(db.tasks[k]))
      :: db.wallets[i].id := TotalFor(Held(db.tasks), db.wallets[i].owner)
  }

  ghost predicate WellFormed(db: Database) {
    && (forall i, j | 0 <= i < j < |db.tasks| :: db.tasks[i].id != db.tasks[j].id)
    && (forall i, j | 0 <= i < j < |db.wallets| :: db.wallets[i].id != db.wallets[j].id)
    && (forall i, j | 0 <= i < j < |db.wallets| && db.wallets[i].owner in db.grants :: db.wallets[i].owner != db.wallets[j].owner)
    && (forall agent | agent in db.grants :: exists i | 0 <= i < |db.wallets| :: db.wallets[i].owner == agent)
  }

  function TotalReserved(wallets: seq<Wallet>): (r: int) {
    if wallets == [] then 0 else TotalReserved(wallets[..|wallets| - 1]) + wallets[|wallets| - 1].reserved
  }

  /** Escrow of tasks with a status outside the table whose payment is still pending. */
  function Unlisted(tasks: seq<Task>, txs: seq<Tx>): (r: int) {
    if tasks == [] then 0
    else
      var last := tasks[|tasks| - 1];
      Unlisted(tasks[..|tasks| - 1], txs)
      + if last.status.OtherTask? && |Payments(txs, last.id)| == 1 && Payments(txs, last.id)[0].status == Pending
        then last.escrow else 0
  }

  // ---- pending payments against escrow -----------------------------------------------------------

  lemma PaymentsOneMore(txs: seq<Tx>, t: Tx, id: string)
    ensures Payments(txs + [t], id) == Payments(txs, id) + if t.isPayment && t.taskId == id then [t] else []
  {
    assert (txs + [t])[..|txs|] == txs;
  }

  lemma AmountsOneMore(txs: seq<Tx>, t: Tx, id: string, status: PayStatus)
    ensures TotalFor(Amounts(txs + [t], status), id)
         == TotalFor(Amounts(txs, status), id)
            + if t.taskId == id && t.isPayment && t.status == status then t.amount else 0
  {
    assert Amounts(txs + [t], status)[..|txs|] == Amounts(txs, status);
  }

  lemma {:induction false} AmountOfTask(txs: seq<Tx>, id: string, status: PayStatus)
    ensures TotalFor(Amounts(txs, status), id) == TotalFor(Amounts(Payments(txs, id), status), id)
  {
    if txs != [] {
      hide TotalFor, Amounts, Payments;
      var n := |txs| - 1;
      var before := Payments(txs[..n], id);
      AmountOfTask(txs[..n], id, status);
      assert txs[..n] + [txs[n]] == txs;
      AmountsOneMore(txs[..n], txs[n], id, status);
      PaymentsOneMore(txs[..n], txs[n], id);
      AmountsOneMore(before, txs[n], id, status);
      assert before + [] == before;
    }
  }

  lemma AmountOfOnePayment(txs: seq<Tx>, id: string, status: PayStatus)
    requires |Payments(txs, id)| == 1
    ensures Payments(txs, id)[0].taskId == id && Payments(txs, id)[0].isPayment
    ensures TotalFor(Amounts(txs, status), id)
         == if Payments(txs, id)[0].status == status then Payments(txs, id)[0].amount else 0
  {
    AmountOfTask(txs, id, status);
    PaymentsArePayments(txs, id);
    var one := Payments(txs, id);
    assert Amounts(one, status)[..0] == [];
    assert TotalFor(Amounts(one, status)[..0], id) == 0;
  }

  lemma {:induction false} PaymentsArePayments(txs: seq<Tx>, id: string)
    ensures forall i | 0 <= i < |Payments(txs, id)| :: Payments(txs, id)[i].taskId == id && Payments(txs, id)[i].isPayment
  {
    if txs != [] { PaymentsArePayments(txs[..|txs| - 1], id); }
  }

  lemma {:induction false} PendingByTask(tasks: seq<Task>, txs: seq<Tx>)
    requires OnePaymentEach(tasks, txs) && StatusFollows(tasks, txs)
    ensures TotalOver(TaskIds(tasks), Amounts(txs, Pending)) == Total(Held(tasks)) + Unlisted(tasks, txs)
  {
    if tasks != [] {
      var n := |tasks| - 1;
      var task := tasks[n];
      PendingByTask(tasks[..n], txs);
      assert TaskIds(tasks)[..n] == TaskIds(tasks[..n]);
      assert Held(tasks)[..n] == Held(tasks[..n]);
      AmountOfOnePayment(txs, task.id, Pending);
      assert Follows(task, Payments(txs, task.id)[0]);
    }
  }

  // ---- reservations against escrow ----------------------------------------------------------------

  lemma HeldWithOneMore(tasks: seq<Task>, task: Task, agent: string)
    ensures TotalFor(Held(tasks + [task]), agent)
         == TotalFor(Held(tasks), agent) + if task.caller == agent && TaskInFlight(task) then task.escrow else 0
  {
    assert Held(tasks + [task])[..|tasks|] == Held(tasks);
  }

  lemma {:induction false} HeldBySociety(tasks: seq<Task>, grants: set<string>, agent: string)
    requires agent in grants
    ensures TotalFor(Held(SocietyTasks(tasks, grants)), agent) == TotalFor(Held(tasks), agent)
  {
    if tasks != [] {
      hide TotalFor, Held;
      var n := |tasks| - 1;
      var before := SocietyTasks(tasks[..n], grants);
      HeldBySociety(tasks[..n], grants, agent);
      assert tasks[..n] + [tasks[n]] == tasks;
      HeldWithOneMore(tasks[..n], tasks[n], agent);
      HeldWithOneMore(before, tasks[n], agent);
      assert before + [] == before;
    }
  }

  lemma {:induction false} NothingHeld(tasks: seq<Task>, agent: string)
    requires forall k | 0 <= k < |tasks| :: tasks[k].caller == agent ==> !TaskInFlight(tasks[k])
    ensures TotalFor(Held(tasks), agent) == 0
  {
    if tasks != [] {
      NothingHeld(tasks[..|tasks| - 1], agent);
      assert Held(tasks)[..|tasks| - 1] == Held(tasks[..|tasks| - 1]);
    }
  }

  /** The row the audit reads for a wallet is the escrow its owner has in flight. */
  lemma InflightIsHeld(db: Database, i: nat)
    requires WellFormed(db) && i < |db.wallets|
    ensures var w := db.wallets[i];
            (if w.id in InflightByWallet(db) then InflightByWallet(db)[w.id] else 0) == TotalFor(Held(db.tasks), w.owner)
  {
    if db.wallets[i].id !in InflightByWallet(db) {
      NothingHeld(db.tasks, db.wallets[i].owner);
    }
  }

  function Owners(wallets: seq<Wallet>): (r: seq<string>)
    ensures |r| == |wallets| && forall i | 0 <= i < |r| :: r[i] == wallets[i].owner
  {
    seq(|wallets|, i requires 0 <= i < |wallets| => wallets[i].owner)
  }

  lemma {:induction false} ReservedByWallet(db: Database, wallets: seq<Wallet>)
    requires WellFormed(db) && WalletsCovered(wallets, InflightByWallet(db))
    requires forall w | w in wallets :: w in db.wallets && w.owner in db.grants
    ensures TotalReserved(wallets) == TotalOver(Owners(wallets), Held(SocietyTasks(db.tasks, db.grants)))
  {
    hide InflightByWallet, SocietyTasks, TotalFor, Held;
    if wallets != [] {
      var n := |wallets| - 1;
      var w := wallets[n];
      ReservedByWallet(db, wallets[..n]);
      assert Owners(wallets)[..n] == Owners(wallets[..n]);
      assert w in wallets;
      var i :| 0 <= i < |db.wallets| && db.wallets[i] == w;
      InflightIsHeld(db, i);
      HeldBySociety(db.tasks, db.grants, w.owner);
    }
  }

  lemma {:induction false} SocietyWalletsDistinct(wallets: seq<Wallet>, grants: set<string>)
    requires forall i, j | 0 <= i < j < |wallets| && wallets[i].owner in grants :: wallets[i].owner != wallets[j].owner
    ensures DistinctStrings(Owners(SocietyWallets(wallets, grants)))
  {
    if wallets != [] {
      var n := |wallets| - 1;
      var before := SocietyWallets(wallets[..n], grants);
      SocietyWalletsDistinct(wallets[..n], grants);
      forall i | 0 <= i < |before| ensures before[i].owner != wallets[n].owner {
        assert before[i] in before && before[i] in wallets[..n];
      }
      assert Owners(before + [wallets[n]]) == Owners(before) + [wallets[n].owner];
      assert Owners(before + []) == Owners(before);
    }
  }

  lemma {:induction false} SocietyTasksDistinct(tasks: seq<Task>, grants: set<string>)
    requires forall i, j | 0 <= i < j < |tasks| :: tasks[i].id != tasks[j].id
    ensures DistinctStrings(TaskIds(SocietyTasks(tasks, grants)))
  {
    if tasks != [] {
      var n := |tasks| - 1;
      var before := SocietyTasks(tasks[..n], grants);
      SocietyTasksDistinct(tasks[..n], grants);
      forall i | 0 <= i < |before| ensures before[i].id != tasks[n].id {
        assert before[i] in before && before[i] in tasks[..n];
      }
      assert TaskIds(before + [tasks[n]]) == TaskIds(before) + [tasks[n].id];
      assert TaskIds(before + []) == TaskIds(before);
    }
  }

  /** All three checks pass on what the audit reads from the database. */
  predicate AuditPasses(db: Database)
    requires WellFormed(db)
  {
    var tasks := SocietyTasks(db.tasks, db.grants);
    var txs := TxsOf(db.txs, TaskIds(tasks));
    && OnePaymentEach(tasks, txs) && StatusFollows(tasks, txs)
    && WalletsCovered(SocietyWallets(db.wallets, db.grants), InflightByWallet(db))
  }

  lemma PendingIsHeld(db: Database)
    requires WellFormed(db) && AuditPasses(db)
    ensures var tasks := SocietyTasks(db.tasks, db.grants);
            var txs := TxsOf(db.txs, TaskIds(tasks));
            Total(Amounts(txs, Pending)) == Total(Held(tasks)) + Unlisted(tasks, txs)
  {
    var tasks := SocietyTasks(db.tasks, db.grants);
    var ids := TaskIds(tasks);
    var txs := TxsOf(db.txs, ids);
    hide TotalOver, Total, Unlisted, WalletsCovered, SocietyTasks, TxsOf;
    SocietyTasksDistinct(db.tasks, db.grants);
    forall i | 0 <= i < |txs| ensures Amounts(txs, Pending)[i].0 in ids {
      assert txs[i] in txs;
    }
    SumsByKeyAddUp(ids, Amounts(txs, Pending));
    PendingByTask(tasks, txs);
  }

  lemma ReservedIsHeld(db: Database)
    requires WellFormed(db) && AuditPasses(db)
    ensures TotalReserved(SocietyWallets(db.wallets, db.grants)) == Total(Held(SocietyTasks(db.tasks, db.grants)))
  {
    var tasks := SocietyTasks(db.tasks, db.grants);
    var wallets := SocietyWallets(db.wallets, db.grants);
    hide TotalOver, Total, SocietyTasks, SocietyWallets, OnePaymentEach, StatusFollows;
    SocietyWalletsDistinct(db.wallets, db.grants);
    forall i | 0 <= i < |tasks| ensures Held(tasks)[i].0 in Owners(wallets) {
      assert tasks[i] in tasks;
      var k :| 0 <= k < |db.wallets| && db.wallets[k].owner == tasks[i].caller;
      assert db.wallets[k] in wallets;
      var j :| 0 <= j < |wallets| && wallets[j] == db.wallets[k];
      assert Owners(wallets)[j] == tasks[i].caller;
    }
    SumsByKeyAddUp(Owners(wallets), Held(tasks));
    ReservedByWallet(db, wallets);
  }

  /** A passed audit over the full history: the reserved credits are exactly the escrow of the
      society's tasks in flight, every balance covers its reservation, and the pending payments
      are that escrow plus what pends for tasks with a status outside the table. */
  lemma AuditMeansMoneyAddsUp(db: Database)
    requires WellFormed(db) && AuditPasses(db)
    ensures var tasks := SocietyTasks(db.tasks, db.grants);
            var txs := TxsOf(db.txs, TaskIds(tasks));
            var wallets := SocietyWallets(db.wallets, db.grants);
            && TotalReserved(wallets) == Total(Held(tasks))
            && Total(Amounts(txs, Pending)) == Total(Held(tasks)) + Unlisted(tasks, txs)
            && forall i | 0 <= i < |wallets| :: 0 <= wallets[i].reserved <= wallets[i].balance
  {
    PendingIsHeld(db);
    ReservedIsHeld(db);
    var wallets := SocietyWallets(db.wallets, db.grants);
    assert forall i | 0 <= i < |wallets| :: Covered(wallets[i], InflightByWallet(db));
  }

  lemma {:induction false} KnownStatusesListAll(tasks: seq<Task>, txs: seq<Tx>)
    requires forall i | 0 <= i < |tasks| :: !tasks[i].status.OtherTask?
    ensures Unlisted(tasks, txs) == 0
  {
    if tasks != [] { KnownStatusesListAll(tasks[..|tasks| - 1], txs); }
  }

  /** With only the six statuses of the schema: pending payments, escrow in flight and reserved
      credits are one and the same sum. */
  lemma AuditIsSound(db: Database)
    requires WellFormed(db) && AuditPasses(db)
    requires forall i | 0 <= i < |db.tasks| :: !db.tasks[i].status.OtherTask?
    ensures var tasks := SocietyTasks(db.tasks, db.grants);
            Total(Amounts(TxsOf(db.txs, TaskIds(tasks)), Pending)) == Total(Held(tasks))
            == TotalReserved(SocietyWallets(db.wallets, db.grants))
  {
    var tasks := SocietyTasks(db.tasks, db.grants);
    AuditMeansMoneyAddsUp(db);
    forall i | 0 <= i < |tasks| ensures !tasks[i].status.OtherTask? {
      assert tasks[i] in tasks && tasks[i] in db.tasks;
    }
    KnownStatusesListAll(tasks, TxsOf(db.txs, TaskIds(tasks)));
  }
}
