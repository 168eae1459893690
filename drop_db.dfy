/**
 * `dropDb`: refused when the database is not registered, otherwise one
 * recursive delete of the database node. The partitioning node that
 * `createDb` allocated for it is not touched.
 */
module DropDbPlan {
  import opened Results
  import opened KvStore
  import opened AdminPlan
  import opened CreateDbPlan

  /** `dropDb` as a function of the store: the guard, then one delete, whose backend error escapes. */
  function DropDbSpec(m: Store, failing: Faults, n: nat, dbName: string): Effect
  {
    var dbP := DbPath(dbName);
    if dbP !in m then Effect(m, n, Fail(CssException(DbDoesNotExist(dbName))))
    else
      var d := OpFailure(Deleted(dbP), failing, m);
      if d.Some? then Effect(m, n, Fail(CssException(d.value)))
      else Effect(Apply(m, Deleted(dbP)), n, Pass)
  }

  /**
   * A drop succeeds exactly when the database node is there and its delete
   * does not fail; it then removes the node and everything below it, and no
   * other key, and changes no value. A failed drop changes nothing.
   */
  lemma DropDbRemovesSubtree(m: Store, failing: Faults, n: nat, dbName: string)
    ensures var e := DropDbSpec(m, failing, n, dbName);
      var dbP := DbPath(dbName);
      && e.counter == n
      && (e.outcome.Pass? <==> dbP in m && dbP !in failing.deletes)
      && (e.outcome.Fail? ==> e.store == m)
      && (dbP !in m ==> e.outcome == Fail(CssException(DbDoesNotExist(dbName))))
      && (dbP in m && dbP in failing.deletes ==> e.outcome == Fail(CssException(BackendFailure(dbP))))
      && (forall k :: k in e.store <==> k in m && (e.outcome.Fail? || !InSubtree(k, dbP)))
      && (forall k :: k in e.store ==> e.store[k] == m[k])
  {
    DeletedEffect(m, DbPath(dbName));
  }

  /** A drop keeps the store closed under parents. */
  lemma DropDbKeepsClosed(m: Store, failing: Faults, n: nat, dbName: string)
    requires AncestorClosed(m)
    ensures AncestorClosed(DropDbSpec(m, failing, n, dbName).store)
  {
    DeletedKeepsClosed(m, DbPath(dbName));
  }

  /** Nothing under the partitioning catalogue is removed by a drop. */
  lemma DropDbKeepsPartitionings(m: Store, failing: Faults, n: nat, dbName: string)
    ensures var e := DropDbSpec(m, failing, n, dbName);
      forall k :: k in m && UnderPartitioning(k) ==> k in e.store && e.store[k] == m[k]
  {
    var dbP := DbPath(dbName);
    DeletedEffect(m, dbP);
    DatabaseKeys(dbName);
    forall k | k in m && UnderPartitioning(k) ensures !InSubtree(k, dbP) {
      CataloguesApart(k);
    }
  }

  /**
   * Dropping a database that `createDb` has just registered does not bring
   * the store back: the partitioning node allocated for it stays behind,
   * and the drop succeeds unless the backend fails the delete.
   */
  lemma DropAfterCreateLeavesPartitioning(m: Store, failing: Faults, n: nat, dbName: string, options: map<string, string>)
    requires AncestorClosed(m) && SeqPath(n) !in m
    requires CreateDbSpec(m, failing, n, dbName, options).outcome.Pass?
    ensures var c := CreateDbSpec(m, failing, n, dbName, options);
      var d := DropDbSpec(c.store, failing, c.counter, dbName);
      && (d.outcome.Pass? <==> DbPath(dbName) !in failing.deletes)
      && (d.outcome.Pass? ==> DbPath(dbName) !in d.store)
      && SeqPath(n) in d.store && d.store != m
  {
    var c := CreateDbSpec(m, failing, n, dbName, options);
    var dbP, ptP := DbPath(dbName), SeqPath(n);
    CreateDbOutcome(m, failing, n, dbName, options);
    DbSpecCases(m, failing, n, dbName, options);
    DbPrefixHasPartition(m, dbName, n, options, 16);
    assert DbPlan(dbP, ptP, options)[..16] == DbPlan(dbP, ptP, options);
    CreateDbFirstFailureMasked(m, failing, n, dbName, options);
    DropDbRemovesSubtree(c.store, failing, c.counter, dbName);
    DbPartitionApart(dbName, n);
    assert InSubtree(ptP, ptP) && InSubtree(dbP, dbP);
  }
}
