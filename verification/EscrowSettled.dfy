/** Where the money of every task is after a passed audit: held, paid out or given back. */
module EscrowSettled {
  import opened Text
  import opened Dicts
  import opened KeyedSums
  import opened EscrowAudit

  /** Transaction i is a payment for this task. */
  ghost predicate PaysFor(txs: seq<Tx>, i: nat, id: string) {
    i < |txs| && txs[i].isPayment && txs[i].taskId == id
  }

  ghost predicate OnlyPayment(txs: seq<Tx>, i: nat, id: string) {
    PaysFor(txs, i, id) && forall j: nat :: PaysFor(txs, j, id) ==> j == i
  }

  lemma PaysForOneMore(txs: seq<Tx>, t: Tx, id: string)
    ensures forall j: nat ::
              PaysFor(txs + [t], j, id) <==> PaysFor(txs, j, id) || (j == |txs| && t.isPayment && t.taskId == id)
  {
  }

  lemma {:induction false} NoPayment(txs: seq<Tx>, id: string)
    ensures Payments(txs, id) == [] <==> forall j: nat :: !PaysFor(txs, j, id)
  {
    if txs != [] {
      hide Payments, PaysFor;
      var n := |txs| - 1;
      NoPayment(txs[..n], id);
      assert txs[..n] + [txs[n]] == txs;
      PaymentsOneMore(txs[..n], txs[n], id);
      PaysForOneMore(txs[..n], txs[n], id);
      assert PaysFor(txs, n, id) <==> PaysFor(txs[..n], n, id) || (txs[n].isPayment && txs[n].taskId == id);
    } else {
      assert forall j: nat :: !PaysFor(txs, j, id);
    }
  }

  /** E01 counts the payments of a task: one, exactly when one transaction and no other pays for it. */
  lemma {:induction false} OnePaymentExactly(txs: seq<Tx>, id: string)
    ensures |Payments(txs, id)| == 1 <==> exists i: nat :: OnlyPayment(txs, i, id)
    ensures forall i: nat :: OnlyPayment(txs, i, id) ==> Payments(txs, id) == [txs[i]]
  {
    if txs != [] {
      var n := |txs| - 1;
      var earlier := txs[..n];
      OnePaymentExactly(earlier, id);
      NoPayment(earlier, id);
      assert forall j: nat :: PaysFor(txs, j, id) <==> PaysFor(earlier, j, id) || (j == n && PaysFor(txs, n, id));
      hide Payments;
      PaymentsOneMore(earlier, txs[n], id);
      assert earlier + [txs[n]] == txs;
      if PaysFor(txs, n, id) {
        if Payments(earlier, id) == [] { assert OnlyPayment(txs, n, id); }
      } else {
        assert forall i: nat :: OnlyPayment(txs, i, id) <==> OnlyPayment(earlier, i, id);
      }
    }
  }

  /** The statuses of the schema. */
  ghost predicate SixStatuses(tasks: seq<Task>) {
    forall i | 0 <= i < |tasks| :: tasks[i].status in {Initiated, InProgress, Completed, Refunded, Timeout, Failed}
  }

  /** The only payment of a task, when it has only one, is of the escrowed amount; it pends as long
      as the task is in flight, is paid when the task is completed, and is cancelled when the task
      was refunded, timed out or failed. */
  ghost predicate SettledRight(task: Task, pay: Tx) {
    && pay.amount == task.escrow
    && (pay.status == Pending <==> task.status in {Initiated, InProgress})
    && (pay.status == Paid <==> task.status == Completed)
    && (pay.status == Cancelled <==> task.status in {Refunded, Timeout, Failed})
  }

  lemma FollowsMeans(task: Task, pay: Tx)
    requires task.status in {Initiated, InProgress, Completed, Refunded, Timeout, Failed}
    ensures Follows(task, pay) <==> SettledRight(task, pay)
  {
  }

  /** What the audit's E02 says of a table with the six statuses. */
  lemma StatusFollowsExactly(tasks: seq<Task>, txs: seq<Tx>)
    requires SixStatuses(tasks)
    ensures StatusFollows(tasks, txs)
       <==> forall i | 0 <= i < |tasks| && |Payments(txs, tasks[i].id)| == 1 ::
              SettledRight(tasks[i], Payments(txs, tasks[i].id)[0])
  {
    hide Payments, Follows, SettledRight;
    forall i | 0 <= i < |tasks| && |Payments(txs, tasks[i].id)| == 1
      ensures Follows(tasks[i], Payments(txs, tasks[i].id)[0]) <==> SettledRight(tasks[i], Payments(txs, tasks[i].id)[0])
    {
      FollowsMeans(tasks[i], Payments(txs, tasks[i].id)[0]);
    }
  }

  /** The escrow of the tasks with one of these statuses. */
  ghost function EscrowIn(tasks: seq<Task>, statuses: set<TaskStatus>): (r: int) {
    if tasks == [] then 0
    else
      var last := tasks[|tasks| - 1];
      EscrowIn(tasks[..|tasks| - 1], statuses) + if last.status in statuses then last.escrow else 0
  }

  /** The task statuses whose payments end up in a payment status. */
  ghost predicate SettledAs(pay: PayStatus, statuses: set<TaskStatus>) {
    || (pay == Pending && statuses == {Initiated, InProgress})
    || (pay == Paid && statuses == {Completed})
    || (pay == Cancelled && statuses == {Refunded, Timeout, Failed})
  }

  lemma {:induction false} AmountsByTask(tasks: seq<Task>, txs: seq<Tx>, pay: PayStatus, statuses: set<TaskStatus>)
    requires OnePaymentEach(tasks, txs) && StatusFollows(tasks, txs) && SixStatuses(tasks) && SettledAs(pay, statuses)
    ensures TotalOver(TaskIds(tasks), Amounts(txs, pay)) == EscrowIn(tasks, statuses)
  {
    if tasks != [] {
      var n := |tasks| - 1;
      var task := tasks[n];
      AmountsByTask(tasks[..n], txs, pay, statuses);
      assert TaskIds(tasks)[..n] == TaskIds(tasks[..n]);
      AmountOfOnePayment(txs, task.id, pay);
      assert Follows(task, Payments(txs, task.id)[0]);
      FollowsMeans(task, Payments(txs, task.id)[0]);
    }
  }

  lemma SettledIn(db: Database, pay: PayStatus, statuses: set<TaskStatus>)
    requires WellFormed(db) && AuditPasses(db) && SixStatuses(db.tasks) && SettledAs(pay, statuses)
    ensures var tasks := SocietyTasks(db.tasks, db.grants);
            Total(Amounts(TxsOf(db.txs, TaskIds(tasks)), pay)) == EscrowIn(tasks, statuses)
  {
    var tasks := SocietyTasks(db.tasks, db.grants);
    var ids := TaskIds(tasks);
    var txs := TxsOf(db.txs, ids);
    hide TotalOver, Total, WalletsCovered, SocietyTasks, TxsOf, EscrowIn;
    SocietyTasksDistinct(db.tasks, db.grants);
    forall i | 0 <= i < |tasks| ensures tasks[i].status in {Initiated, InProgress, Completed, Refunded, Timeout, Failed} {
      assert tasks[i] in tasks && tasks[i] in db.tasks;
    }
    forall i | 0 <= i < |txs| ensures Amounts(txs, pay)[i].0 in ids {
      assert txs[i] in txs;
    }
    SumsByKeyAddUp(ids, Amounts(txs, pay));
    AmountsByTask(tasks, txs, pay, statuses);
  }

  lemma NoOtherStatus(tasks: seq<Task>, txs: seq<Tx>, t: Tx)
    requires OnePaymentEach(tasks, txs) && StatusFollows(tasks, txs) && SixStatuses(tasks)
    requires t in txs && t.isPayment && t.taskId in TaskIds(tasks)
    ensures t.status in {Pending, Paid, Cancelled}
  {
    hide Payments;
    var k :| 0 <= k < |tasks| && TaskIds(tasks)[k] == t.taskId;
    var j :| 0 <= j < |txs| && txs[j] == t;
    OnePaymentExactly(txs, t.taskId);
    assert PaysFor(txs, j, t.taskId);
    var i: nat :| OnlyPayment(txs, i, t.taskId);
    assert Follows(tasks[k], Payments(txs, tasks[k].id)[0]);
  }

  /** After a passed audit every credit of every society task is in the one place its status calls
      for: the pending payments are the escrow in flight, the paid ones the escrow of the completed
      tasks, the cancelled ones that of the refunded, timed-out and failed tasks, and no payment of
      a society task has any other status. */
  lemma EveryCreditIsAccountedFor(db: Database)
    requires WellFormed(db) && AuditPasses(db) && SixStatuses(db.tasks)
    ensures var tasks := SocietyTasks(db.tasks, db.grants);
            var txs := TxsOf(db.txs, TaskIds(tasks));
            && Total(Amounts(txs, Pending)) == EscrowIn(tasks, {Initiated, InProgress})
               == TotalReserved(SocietyWallets(db.wallets, db.grants))
            && Total(Amounts(txs, Paid)) == EscrowIn(tasks, {Completed})
            && Total(Amounts(txs, Cancelled)) == EscrowIn(tasks, {Refunded, Timeout, Failed})
            && forall t | t in txs && t.isPayment :: t.status in {Pending, Paid, Cancelled}
  {
    var tasks := SocietyTasks(db.tasks, db.grants);
    hide Total, WalletsCovered, SocietyTasks, TxsOf, EscrowIn, TotalReserved, SocietyWallets, OnePaymentEach, StatusFollows;
    SettledIn(db, Pending, {Initiated, InProgress});
    SettledIn(db, Paid, {Completed});
    SettledIn(db, Cancelled, {Refunded, Timeout, Failed});
    AuditIsSound(db);
    var txs := TxsOf(db.txs, TaskIds(tasks));
    forall i | 0 <= i < |tasks| ensures tasks[i].status in {Initiated, InProgress, Completed, Refunded, Timeout, Failed} {
      assert tasks[i] in tasks && tasks[i] in db.tasks;
    }
    forall t | t in txs && t.isPayment ensures t.status in {Pending, Paid, Cancelled} {
      NoOtherStatus(tasks, txs, t);
    }
  }
}
