/**
 * The writes of `createDb`: the database node (PENDING, then READY), a new
 * partitioning node with its parameters, the database attributes and the
 * lock section.
 */
module CreateDbPlan {
  import opened Results
  import opened Decimal
  import opened KvStore
  import opened AdminPlan

  // ----- the plan -----

  /** The partitioning parameters, written under the partitioning node. */
  function PtOps(ptP: string, options: map<string, string>): (ops: seq<Mutation>)
    ensures |ops| == 3
  {
    ChildOps(ptP, PtFields, PtValues(options))
  }

  function PtValues(options: map<string, string>): seq<string>
  {
    [Opt(options, "nStripes"), Opt(options, "nSubStripes"), Opt(options, "overlap")]
  }

  /** The database attributes `createDb` writes; the partitioning id is taken from the partitioning node's name. */
  function FieldOps(dbP: string, ptP: string, options: map<string, string>): (ops: seq<Mutation>)
    ensures |ops| == 4
  {
    ChildOps(dbP, DbFields, DbValues(ptP, options))
  }

  function DbValues(ptP: string, options: map<string, string>): seq<string>
  {
    [Opt(options, "dbGroup"), Last10(ptP), "UNRELEASED", Opt(options, "objectIdIndex")]
  }

  /** The writes of `createDb` when every step succeeds. */
  function DbPlan(dbP: string, ptP: string, options: map<string, string>): (plan: seq<Mutation>)
    ensures |plan| == 16
  {
    [Created(dbP, "PENDING"), Created(ptP, "")] + PtOps(ptP, options) + FieldOps(dbP, ptP, options)
    + LockOps(dbP) + [SetTo(dbP, "READY")]
  }

  /** For each step of a `createDb` plan, the option it looks up just before its write. */
  const DbNeeds: seq<Option<string>> :=
    [None, None, Some("nStripes"), Some("nSubStripes"), Some("overlap"), Some("dbGroup"), None, None,
     Some("objectIdIndex"), None, None, None, None, None, None, None]

  /** The cleanup after plan step `steps` failed: the database node, and the partitioning node once allocated. */
  function DbRollback(dbP: string, ptP: string, steps: nat): seq<Mutation>
  {
    [Deleted(dbP)] + (if steps >= 2 then [Deleted(ptP)] else [])
  }

  /** Every write of a `createDb` plan lies under the database node or the partitioning node, and none deletes. */
  lemma DbPlanUnder(dbP: string, ptP: string, options: map<string, string>)
    ensures AllUnder(DbPlan(dbP, ptP, options), dbP, ptP)
    ensures NoDeletes(DbPlan(dbP, ptP, options))
  {
    var pt, db, lock := PtOps(ptP, options), FieldOps(dbP, ptP, options), LockOps(dbP);
    ChildOpsUnder(ptP, PtFields, PtValues(options), dbP);
    ChildOpsUnder(dbP, DbFields, DbValues(ptP, options), ptP);
    forall i | 0 <= i < 6 ensures InSubtree(lock[i].path, dbP) {
      assert lock[i].path[..|dbP|] == dbP;
    }
    var head: seq<Mutation> := [Created(dbP, "PENDING"), Created(ptP, "")];
    assert AllUnder(head, dbP, ptP);
    assert AllUnder([SetTo(dbP, "READY")], dbP, ptP);
    AllUnderAppend(head, pt, dbP, ptP);
    AllUnderAppend(head + pt, db, dbP, ptP);
    AllUnderAppend(head + pt + db, lock, dbP, ptP);
    AllUnderAppend(head + pt + db + lock, [SetTo(dbP, "READY")], dbP, ptP);
  }

  /** No write of a `createDb` plan between the first and the last touches the database node itself. */
  lemma DbPlanMiddleAvoids(dbName: string, n: nat, options: map<string, string>)
    ensures Avoids(DbPlan(DbPath(dbName), SeqPath(n), options)[1..15], DbPath(dbName))
  {
    var dbP, ptP := DbPath(dbName), SeqPath(n);
    var pt, db, lock := PtOps(ptP, options), FieldOps(dbP, ptP, options), LockOps(dbP);
    DbPartitionApart(dbName, n);
    ChildOpsUnder(ptP, PtFields, PtValues(options), ptP);
    var mid := [Created(ptP, "")] + pt + db + lock;
    assert DbPlan(dbP, ptP, options)[1..15] == mid;
    assert InSubtree(dbP, dbP) && InSubtree(ptP, ptP);
    assert Avoids([Created(ptP, "")], dbP);
    UnderAvoids(pt, ptP, dbP);
    ChildOpsAvoid(dbP, DbFields, DbValues(ptP, options), dbP);
    ChildOpsAvoid(dbP + "/LOCK", LockFields, ["", "", "", "", "", ""], dbP);
    AvoidsAppend([Created(ptP, "")], pt, dbP);
    AvoidsAppend([Created(ptP, "")] + pt, db, dbP);
    AvoidsAppend([Created(ptP, "")] + pt + db, lock, dbP);
  }

  /** Between its first write and its last, a database being created reads "PENDING": no reader sees it READY early. */
  lemma {:induction false} DbPendingUntilCommit(m: Store, dbName: string, n: nat, options: map<string, string>, k: nat)
    requires 1 <= k < 16
    ensures var dbP := DbPath(dbName);
      var mk := ApplyAll(m, DbPlan(dbP, SeqPath(n), options)[..k]);
      dbP in mk && mk[dbP] == "PENDING"
  {
    var dbP, ptP := DbPath(dbName), SeqPath(n);
    var plan := DbPlan(dbP, ptP, options);
    DbPlanUnder(dbP, ptP, options);
    DbPlanMiddleAvoids(dbName, n, options);
    assert plan[..k] == [plan[0]] + plan[1..k];
    assert plan[1..k] == plan[1..15][..k - 1];
    ApplyAllAppend(m, [plan[0]], plan[1..k]);
    assert ApplyAll(m, [plan[0]]) == Apply(m, Created(dbP, "PENDING"));
    CreatedEffect(m, dbP, "PENDING");
    WritesElsewhereKeep(Apply(m, Created(dbP, "PENDING")), plan[1..k], dbP);
  }

  /**
   * After plan step `k` fails, the rollback's deletes find their nodes, and
   * they leave every key that was there before with its old value and no
   * new key but parent nodes created on the way.
   */
  lemma DbRollbackRestores(m: Store, dbName: string, n: nat, options: map<string, string>, k: nat)
    requires AncestorClosed(m) && DbPath(dbName) !in m && 1 <= k < 16
    requires k >= 2 ==> SeqPath(n) !in m
    ensures var dbP, ptP := DbPath(dbName), SeqPath(n);
      var mk := ApplyAll(m, DbPlan(dbP, ptP, options)[..k]);
      var after := ApplyAll(mk, DbRollback(dbP, ptP, k));
      && dbP in mk
      && (k >= 2 ==> ptP in Apply(mk, Deleted(dbP)))
      && (forall key :: key in m ==> key in after && after[key] == m[key])
      && (forall key :: key in after ==> key in m || key in Ancestors(dbP) || key in Ancestors(ptP))
  {
    DbPendingUntilCommit(m, dbName, n, options, k);
    if k == 1 {
      DbRollbackEarly(m, dbName, n, options);
    } else {
      DbRollbackLate(m, dbName, n, options, k);
    }
  }

  /** What the writes of a partial plan add: keys under or above the two nodes. */
  lemma DbPrefixWrites(m: Store, dbName: string, n: nat, options: map<string, string>, k: nat)
    requires AncestorClosed(m) && DbPath(dbName) !in m && SeqPath(n) !in m && k <= 16
    ensures var dbP, ptP := DbPath(dbName), SeqPath(n);
      var mk := ApplyAll(m, DbPlan(dbP, ptP, options)[..k]);
      && (forall key :: key in m ==> key in mk && mk[key] == m[key] && !InSubtree(key, dbP) && !InSubtree(key, ptP))
      && (forall key :: key in mk ==> key in m || InSubtree(key, dbP) || InSubtree(key, ptP) || key in Ancestors(dbP) || key in Ancestors(ptP))
  {
    var dbP, ptP := DbPath(dbName), SeqPath(n);
    var plan := DbPlan(dbP, ptP, options);
    DbPlanUnder(dbP, ptP, options);
    AbsentRootEmptySubtree(m, dbP);
    AbsentRootEmptySubtree(m, ptP);
    assert AllUnder(plan[..k], dbP, ptP);
    WritesUnder(m, plan[..k], dbP, ptP);
  }

  lemma DbRollbackEarly(m: Store, dbName: string, n: nat, options: map<string, string>)
    requires AncestorClosed(m) && DbPath(dbName) !in m
    ensures var dbP, ptP := DbPath(dbName), SeqPath(n);
      var after := ApplyAll(ApplyAll(m, DbPlan(dbP, ptP, options)[..1]), DbRollback(dbP, ptP, 1));
      && (forall key :: key in m ==> key in after && after[key] == m[key])
      && (forall key :: key in after ==> key in m || key in Ancestors(dbP))
  {
    var dbP, ptP := DbPath(dbName), SeqPath(n);
    var plan := DbPlan(dbP, ptP, options);
    assert plan[..1] == [Created(dbP, "PENDING")];
    var m1 := Apply(m, Created(dbP, "PENDING"));
    CreatedEffect(m, dbP, "PENDING");
    AbsentRootEmptySubtree(m, dbP);
    assert DbRollback(dbP, ptP, 1) == [Deleted(dbP)];
    assert ApplyAll(m1, [Deleted(dbP)]) == Apply(m1, Deleted(dbP));
    DeletedEffect(m1, dbP);
    assert InSubtree(dbP, dbP);
  }

  /** Once allocated, the partitioning node stays in the store for the rest of the plan. */
  lemma DbPrefixHasPartition(m: Store, dbName: string, n: nat, options: map<string, string>, k: nat)
    requires 2 <= k <= 16
    ensures SeqPath(n) in ApplyAll(m, DbPlan(DbPath(dbName), SeqPath(n), options)[..k])
  {
    var dbP, ptP := DbPath(dbName), SeqPath(n);
    DbPlanUnder(dbP, ptP, options);
    DbPlanNamed(dbP, ptP, options);
    CreatedStays(m, DbPlan(dbP, ptP, options), 1, k);
  }

  lemma DbRollbackLate(m: Store, dbName: string, n: nat, options: map<string, string>, k: nat)
    requires AncestorClosed(m) && DbPath(dbName) !in m && SeqPath(n) !in m && 2 <= k < 16
    ensures var dbP, ptP := DbPath(dbName), SeqPath(n);
      var mk := ApplyAll(m, DbPlan(dbP, ptP, options)[..k]);
      var after := ApplyAll(mk, DbRollback(dbP, ptP, k));
      && ptP in Apply(mk, Deleted(dbP))
      && (forall key :: key in m ==> key in after && after[key] == m[key])
      && (forall key :: key in after ==> key in m || key in Ancestors(dbP) || key in Ancestors(ptP))
  {
    var dbP, ptP := DbPath(dbName), SeqPath(n);
    var mk := ApplyAll(m, DbPlan(dbP, ptP, options)[..k]);
    DbPrefixWrites(m, dbName, n, options, k);
    DbPrefixHasPartition(m, dbName, n, options, k);
    DbPartitionApart(dbName, n);
    assert InSubtree(ptP, ptP) && InSubtree(dbP, dbP);
    var m1 := Apply(mk, Deleted(dbP));
    DeletedEffect(mk, dbP);
    DeletedEffect(m1, ptP);
    assert DbRollback(dbP, ptP, k) == [Deleted(dbP)] + [Deleted(ptP)];
    ApplyAllAppend(mk, [Deleted(dbP)], [Deleted(ptP)]);
    assert ApplyAll(mk, DbRollback(dbP, ptP, k)) == Apply(m1, Deleted(ptP));
  }

  // ----- the committed database -----

  /** The store after the plan's first two creates, its three segments and the final set. */
  lemma DbPlanStages(m: Store, dbP: string, ptP: string, options: map<string, string>)
    ensures var m1 := Apply(Apply(m, Created(dbP, "PENDING")), Created(ptP, ""));
      var m2 := ApplyAll(m1, PtOps(ptP, options));
      var m3 := ApplyAll(m2, FieldOps(dbP, ptP, options));
      var m4 := ApplyAll(m3, LockOps(dbP));
      ApplyAll(m, DbPlan(dbP, ptP, options)) == Apply(m4, SetTo(dbP, "READY"))
  {
    var head: seq<Mutation> := [Created(dbP, "PENDING"), Created(ptP, "")];
    var pt, db, lock := PtOps(ptP, options), FieldOps(dbP, ptP, options), LockOps(dbP);
    assert head == [Created(dbP, "PENDING")] + [Created(ptP, "")];
    ApplyAllAppend(m, [Created(dbP, "PENDING")], [Created(ptP, "")]);
    ApplyAllAppend(m, head, pt);
    ApplyAllAppend(m, head + pt, db);
    ApplyAllAppend(m, head + pt + db, lock);
    ApplyAllAppend(m, head + pt + db + lock, [SetTo(dbP, "READY")]);
  }

  lemma PtFieldsWellFormed()
    ensures SlashFree(PtFields) && Distinct(PtFields)
  {
  }


  /** A committed database: READY, with its four attributes, its partitioning parameters and six empty lock keys. */
  lemma DbCommitValues(m: Store, dbName: string, n: nat, options: map<string, string>)
    ensures var dbP, ptP := DbPath(dbName), SeqPath(n);
      var after := ApplyAll(m, DbPlan(dbP, ptP, options));
      && dbP in after && after[dbP] == "READY"
      && dbP + "/dbGroup" in after && after[dbP + "/dbGroup"] == Opt(options, "dbGroup")
      && dbP + "/partitioningId" in after && after[dbP + "/partitioningId"] == Last10(ptP)
      && dbP + "/releaseStatus" in after && after[dbP + "/releaseStatus"] == "UNRELEASED"
      && dbP + "/objIdIndex" in after && after[dbP + "/objIdIndex"] == Opt(options, "objectIdIndex")
      && ptP + "/nStripes" in after && after[ptP + "/nStripes"] == Opt(options, "nStripes")
      && ptP + "/nSubStripes" in after && after[ptP + "/nSubStripes"] == Opt(options, "nSubStripes")
      && ptP + "/overlap" in after && after[ptP + "/overlap"] == Opt(options, "overlap")
      && (forall i :: 0 <= i < |LockFields| ==> dbP + "/LOCK/" + LockFields[i] in after && after[dbP + "/LOCK/" + LockFields[i]] == "")
  {
    DbPartitionApart(dbName, n);
    DbCommitValuesAt(m, DbPath(dbName), SeqPath(n), options);
  }

  lemma DbCommitValuesAt(m: Store, dbP: string, ptP: string, options: map<string, string>)
    requires dbP != "" && ptP != "" && forall k :: InSubtree(k, dbP) ==> !InSubtree(k, ptP)
    ensures var after := ApplyAll(m, DbPlan(dbP, ptP, options));
      && dbP in after && after[dbP] == "READY"
      && dbP + "/dbGroup" in after && after[dbP + "/dbGroup"] == Opt(options, "dbGroup")
      && dbP + "/partitioningId" in after && after[dbP + "/partitioningId"] == Last10(ptP)
      && dbP + "/releaseStatus" in after && after[dbP + "/releaseStatus"] == "UNRELEASED"
      && dbP + "/objIdIndex" in after && after[dbP + "/objIdIndex"] == Opt(options, "objectIdIndex")
      && ptP + "/nStripes" in after && after[ptP + "/nStripes"] == Opt(options, "nStripes")
      && ptP + "/nSubStripes" in after && after[ptP + "/nSubStripes"] == Opt(options, "nSubStripes")
      && ptP + "/overlap" in after && after[ptP + "/overlap"] == Opt(options, "overlap")
      && (forall i :: 0 <= i < |LockFields| ==> dbP + "/LOCK/" + LockFields[i] in after && after[dbP + "/LOCK/" + LockFields[i]] == "")
  {
    FieldPathsNamed(dbP, ptP);
    DbPlanStages(m, dbP, ptP, options);
    var m1 := Apply(Apply(m, Created(dbP, "PENDING")), Created(ptP, ""));
    var m2 := ApplyAll(m1, PtOps(ptP, options));
    var m3 := ApplyAll(m2, FieldOps(dbP, ptP, options));
    StagePt(m1, ptP, options);
    StageFields(m2, dbP, ptP, options);
    StageFieldsKeep(m2, dbP, ptP, options);
    StageLock(m3, dbP);
    StageLockKeep(m3, dbP, ptP);
  }

  lemma FieldPathsNamed(dbP: string, ptP: string)
    ensures dbP + "/dbGroup" in ChildPaths(dbP, DbFields) && dbP + "/partitioningId" in ChildPaths(dbP, DbFields)
    ensures dbP + "/releaseStatus" in ChildPaths(dbP, DbFields) && dbP + "/objIdIndex" in ChildPaths(dbP, DbFields)
    ensures InSubtree(ptP + "/nStripes", ptP) && InSubtree(ptP + "/nSubStripes", ptP) && InSubtree(ptP + "/overlap", ptP)
  {
    JoinChild(dbP, DbFields[0], "/dbGroup");
    JoinChild(dbP, DbFields[1], "/partitioningId");
    JoinChild(dbP, DbFields[2], "/releaseStatus");
    JoinChild(dbP, DbFields[3], "/objIdIndex");
    assert (ptP + "/nStripes")[..|ptP|] == ptP && (ptP + "/nSubStripes")[..|ptP|] == ptP && (ptP + "/overlap")[..|ptP|] == ptP;
  }

  lemma ChildPathsBelow(p: string, names: seq<string>)
    ensures forall k :: k in ChildPaths(p, names) ==> InSubtree(k, p) && |k| > |p|
  {
    forall k | k in ChildPaths(p, names) ensures InSubtree(k, p) && |k| > |p| {
      var f :| f in names && k == p + "/" + f;
      assert k[..|p|] == p;
    }
  }

  lemma StagePt(m1: Store, ptP: string, options: map<string, string>)
    requires ptP != ""
    ensures var m2 := ApplyAll(m1, PtOps(ptP, options));
      && ptP + "/nStripes" in m2 && m2[ptP + "/nStripes"] == Opt(options, "nStripes")
      && ptP + "/nSubStripes" in m2 && m2[ptP + "/nSubStripes"] == Opt(options, "nSubStripes")
      && ptP + "/overlap" in m2 && m2[ptP + "/overlap"] == Opt(options, "overlap")
  {
    PtFieldsWellFormed();
    ChildOpsValues(m1, ptP, PtFields, PtValues(options));
    PtValuesNamed(ApplyAll(m1, PtOps(ptP, options)), ptP, options);
  }

  lemma PtValuesNamed(m2: Store, ptP: string, options: map<string, string>)
    requires forall i :: 0 <= i < |PtFields| ==> ptP + "/" + PtFields[i] in m2 && m2[ptP + "/" + PtFields[i]] == PtValues(options)[i]
    ensures && ptP + "/nStripes" in m2 && m2[ptP + "/nStripes"] == Opt(options, "nStripes")
            && ptP + "/nSubStripes" in m2 && m2[ptP + "/nSubStripes"] == Opt(options, "nSubStripes")
            && ptP + "/overlap" in m2 && m2[ptP + "/overlap"] == Opt(options, "overlap")
  {
    JoinChild(ptP, PtFields[0], "/nStripes");
    JoinChild(ptP, PtFields[1], "/nSubStripes");
    JoinChild(ptP, PtFields[2], "/overlap");
  }

  /** The attribute writes add the four attributes. */
  lemma StageFields(m2: Store, dbP: string, ptP: string, options: map<string, string>)
    requires dbP != ""
    ensures var m3 := ApplyAll(m2, FieldOps(dbP, ptP, options));
      && dbP + "/dbGroup" in m3 && m3[dbP + "/dbGroup"] == Opt(options, "dbGroup")
      && dbP + "/partitioningId" in m3 && m3[dbP + "/partitioningId"] == Last10(ptP)
      && dbP + "/releaseStatus" in m3 && m3[dbP + "/releaseStatus"] == "UNRELEASED"
      && dbP + "/objIdIndex" in m3 && m3[dbP + "/objIdIndex"] == Opt(options, "objectIdIndex")
  {
    DbFieldsWellFormed();
    ChildOpsValues(m2, dbP, DbFields, DbValues(ptP, options));
    DbValuesNamed(ApplyAll(m2, FieldOps(dbP, ptP, options)), dbP, ptP, options);
  }

  lemma DbValuesNamed(m3: Store, dbP: string, ptP: string, options: map<string, string>)
    requires forall i :: 0 <= i < |DbFields| ==> dbP + "/" + DbFields[i] in m3 && m3[dbP + "/" + DbFields[i]] == DbValues(ptP, options)[i]
    ensures && dbP + "/dbGroup" in m3 && m3[dbP + "/dbGroup"] == Opt(options, "dbGroup")
            && dbP + "/partitioningId" in m3 && m3[dbP + "/partitioningId"] == Last10(ptP)
            && dbP + "/releaseStatus" in m3 && m3[dbP + "/releaseStatus"] == "UNRELEASED"
            && dbP + "/objIdIndex" in m3 && m3[dbP + "/objIdIndex"] == Opt(options, "objectIdIndex")
  {
    JoinChild(dbP, DbFields[0], "/dbGroup");
    JoinChild(dbP, DbFields[1], "/partitioningId");
    JoinChild(dbP, DbFields[2], "/releaseStatus");
    JoinChild(dbP, DbFields[3], "/objIdIndex");
  }

  /** The attribute writes keep the partitioning parameters. */
  lemma StageFieldsKeep(m2: Store, dbP: string, ptP: string, options: map<string, string>)
    requires dbP != "" && forall k :: InSubtree(k, dbP) ==> !InSubtree(k, ptP)
    ensures var m3 := ApplyAll(m2, FieldOps(dbP, ptP, options));
      forall k :: k in m2 && InSubtree(k, ptP) ==> k in m3 && m3[k] == m2[k]
  {
    DbFieldsWellFormed();
    ChildPathsBelow(dbP, DbFields);
    ChildOpsValues(m2, dbP, DbFields, DbValues(ptP, options));
  }

  /** The lock writes and the final set add the empty lock keys and mark the database READY. */
  lemma StageLock(m3: Store, dbP: string)
    requires dbP != ""
    ensures var after := Apply(ApplyAll(m3, LockOps(dbP)), SetTo(dbP, "READY"));
      && dbP in after && after[dbP] == "READY"
      && (forall i :: 0 <= i < |LockFields| ==> dbP + "/LOCK/" + LockFields[i] in after && after[dbP + "/LOCK/" + LockFields[i]] == "")
  {
    LockFieldsWellFormed();
    ChildOpsValues(m3, dbP + "/LOCK", LockFields, ["", "", "", "", "", ""]);
    LockValuesNamed(ApplyAll(m3, LockOps(dbP)), dbP);
  }

  lemma LockValuesNamed(m4: Store, dbP: string)
    requires forall i :: 0 <= i < |LockFields| ==> dbP + "/LOCK" + "/" + LockFields[i] in m4 && m4[dbP + "/LOCK" + "/" + LockFields[i]] == ["", "", "", "", "", ""][i]
    ensures && dbP in m4[dbP := "READY"] && m4[dbP := "READY"][dbP] == "READY"
            && (forall i :: 0 <= i < |LockFields| ==> dbP + "/LOCK/" + LockFields[i] in m4[dbP := "READY"] && m4[dbP := "READY"][dbP + "/LOCK/" + LockFields[i]] == "")
  {
    forall i | 0 <= i < |LockFields|
      ensures dbP + "/LOCK/" + LockFields[i] in m4[dbP := "READY"] && m4[dbP := "READY"][dbP + "/LOCK/" + LockFields[i]] == ""
    {
      LockPath(dbP, LockFields[i]);
      assert dbP + "/LOCK/" + LockFields[i] != dbP;
    }
  }

  /** The lock keys are neither attributes nor partitioning parameters. */
  lemma LockKeysApart(dbP: string, ptP: string)
    requires dbP != "" && forall k :: InSubtree(k, dbP) ==> !InSubtree(k, ptP)
    ensures forall k :: k in ChildPaths(dbP + "/LOCK", LockFields) ==> k !in ChildPaths(dbP, DbFields) && !InSubtree(k, ptP)
  {
    forall k | k in ChildPaths(dbP + "/LOCK", LockFields) ensures k !in ChildPaths(dbP, DbFields) && InSubtree(k, dbP) {
      var g :| g in LockFields && k == dbP + "/LOCK" + "/" + g;
      LockKeyApart(dbP, g);
    }
  }


  /** The lock writes and the final set keep the attributes and the partitioning parameters. */
  lemma StageLockKeep(m3: Store, dbP: string, ptP: string)
    requires dbP != "" && forall k :: InSubtree(k, dbP) ==> !InSubtree(k, ptP)
    ensures var after := Apply(ApplyAll(m3, LockOps(dbP)), SetTo(dbP, "READY"));
      forall k :: k in m3 && (InSubtree(k, ptP) || k in ChildPaths(dbP, DbFields)) ==> k in after && after[k] == m3[k]
  {
    LockFieldsWellFormed();
    ChildOpsValues(m3, dbP + "/LOCK", LockFields, ["", "", "", "", "", ""]);
    LockKeepsOthers(m3, ApplyAll(m3, LockOps(dbP)), dbP, ptP);
  }

  /** `StageLockKeep` for any store `m4` that the lock writes leave unchanged outside the lock keys. */
  lemma LockKeepsOthers(m3: Store, m4: Store, dbP: string, ptP: string)
    requires dbP != "" && forall k :: InSubtree(k, dbP) ==> !InSubtree(k, ptP)
    requires forall k :: k in m3 && k !in ChildPaths(dbP + "/LOCK", LockFields) ==> k in m4 && m4[k] == m3[k]
    ensures forall k :: k in m3 && (InSubtree(k, ptP) || k in ChildPaths(dbP, DbFields)) ==>
      k in m4[dbP := "READY"] && m4[dbP := "READY"][k] == m3[k]
  {
    LockKeysApart(dbP, ptP);
    ChildPathsBelow(dbP, DbFields);
    assert InSubtree(dbP, dbP);
  }

  /** The sixteen steps of a `createDb` plan, one by one, written the way `createDb` names them. */
  ghost predicate DbPlanShape(plan: seq<Mutation>, dbP: string, ptP: string, options: map<string, string>)
  {
    && |plan| == 16
    && plan[0] == Created(dbP, "PENDING") && plan[1] == Created(ptP, "")
    && plan[2] == Created(ptP + "/nStripes", Opt(options, "nStripes"))
    && plan[3] == Created(ptP + "/nSubStripes", Opt(options, "nSubStripes"))
    && plan[4] == Created(ptP + "/overlap", Opt(options, "overlap"))
    && plan[5] == Created(dbP + "/dbGroup", Opt(options, "dbGroup"))
    && plan[6] == Created(dbP + "/partitioningId", Last10(ptP))
    && plan[7] == Created(dbP + "/releaseStatus", "UNRELEASED")
    && plan[8] == Created(dbP + "/objIdIndex", Opt(options, "objectIdIndex"))
    && plan[9..15] == LockOps(dbP) && plan[15] == SetTo(dbP, "READY")
  }

  /** For each step of the plan, whether `createDb` looks up an option just before it. */
  ghost predicate DbNeedsShape(needs: seq<Option<string>>)
  {
    && |needs| == 16
    && needs[0] == None && needs[1] == None && needs[2] == Some("nStripes") && needs[3] == Some("nSubStripes")
    && needs[4] == Some("overlap") && needs[5] == Some("dbGroup") && needs[6] == None && needs[7] == None
    && needs[8] == Some("objectIdIndex") && forall i :: 9 <= i < 16 ==> needs[i] == None
  }

  lemma DbPlanNamed(dbP: string, ptP: string, options: map<string, string>)
    ensures DbPlanShape(DbPlan(dbP, ptP, options), dbP, ptP, options) && DbNeedsShape(DbNeeds)
  {
    DbPlanSegments(dbP, ptP, options);
    ShapeFromSegments(DbPlan(dbP, ptP, options), dbP, ptP, options);
    DbNeedsListed();
  }

  lemma DbNeedsListed()
    ensures DbNeedsShape(DbNeeds)
  {
  }

  lemma ShapeFromSegments(plan: seq<Mutation>, dbP: string, ptP: string, options: map<string, string>)
    requires |plan| == 16 && plan[0] == Created(dbP, "PENDING") && plan[1] == Created(ptP, "")
    requires plan[2..5] == PtOps(ptP, options) && plan[5..9] == FieldOps(dbP, ptP, options)
    requires plan[9..15] == LockOps(dbP) && plan[15] == SetTo(dbP, "READY")
    ensures DbPlanShape(plan, dbP, ptP, options)
  {
    PtOpsNamed(ptP, options);
    FieldOpsNamed(dbP, ptP, options);
    assert plan[2] == plan[2..5][0] && plan[3] == plan[2..5][1] && plan[4] == plan[2..5][2];
    assert plan[5] == plan[5..9][0] && plan[6] == plan[5..9][1] && plan[7] == plan[5..9][2] && plan[8] == plan[5..9][3];
  }

  /** The plan is its two creates, its three segments and the final set, in that order. */
  lemma DbPlanSegments(dbP: string, ptP: string, options: map<string, string>)
    ensures var plan := DbPlan(dbP, ptP, options);
      && plan[0] == Created(dbP, "PENDING") && plan[1] == Created(ptP, "")
      && plan[2..5] == PtOps(ptP, options) && plan[5..9] == FieldOps(dbP, ptP, options)
      && plan[9..15] == LockOps(dbP) && plan[15] == SetTo(dbP, "READY")
  {
  }

  lemma PtOpsNamed(ptP: string, options: map<string, string>)
    ensures var ops := PtOps(ptP, options);
      && ops[0] == Created(ptP + "/nStripes", Opt(options, "nStripes"))
      && ops[1] == Created(ptP + "/nSubStripes", Opt(options, "nSubStripes"))
      && ops[2] == Created(ptP + "/overlap", Opt(options, "overlap"))
  {
    JoinChild(ptP, PtFields[0], "/nStripes");
    JoinChild(ptP, PtFields[1], "/nSubStripes");
    JoinChild(ptP, PtFields[2], "/overlap");
  }

  lemma FieldOpsNamed(dbP: string, ptP: string, options: map<string, string>)
    ensures var ops := FieldOps(dbP, ptP, options);
      && ops[0] == Created(dbP + "/dbGroup", Opt(options, "dbGroup"))
      && ops[1] == Created(dbP + "/partitioningId", Last10(ptP))
      && ops[2] == Created(dbP + "/releaseStatus", "UNRELEASED")
      && ops[3] == Created(dbP + "/objIdIndex", Opt(options, "objectIdIndex"))
  {
    JoinChild(dbP, DbFields[0], "/dbGroup");
    JoinChild(dbP, DbFields[1], "/partitioningId");
    JoinChild(dbP, DbFields[2], "/releaseStatus");
    JoinChild(dbP, DbFields[3], "/objIdIndex");
  }

  /** How far the writes of `createDb` get from store `m`, with backend counter `n`. */
  ghost function DbStop(m: Store, failing: Faults, n: nat, dbName: string, options: map<string, string>): (s: nat)
    ensures s <= 16
  {
    FirstStop(m, failing, DbPlan(DbPath(dbName), SeqPath(n), options), DbNeeds, options, 0)
  }

  /**
   * `createDb` as a function of the store: refused when the database exists;
   * otherwise the writes run up to their first failure. A store error runs
   * the cleanup, deleting the database node and, once allocated, the
   * partitioning node, and re-raises; a delete that fails raises its own
   * error instead and leaves the rest in place (the database node's delete
   * always fails when the very first create did). A missing option escapes
   * as `KeyError` with no cleanup.
   */
  ghost function CreateDbSpec(m: Store, failing: Faults, n: nat, dbName: string, options: map<string, string>): Effect
  {
    var dbP, ptP := DbPath(dbName), SeqPath(n);
    if dbP in m then Effect(m, n, Fail(CssException(CssError.DbExists(dbName))))
    else
      var plan := DbPlan(dbP, ptP, options);
      var s := DbStop(m, failing, n, dbName, options);
      var mk := Trace(m, plan)[s];
      var n' := if s >= 2 then n + 1 else n;
      var err := if s == 16 then None else StepError(plan[s], DbNeeds[s], options, failing, mk);
      // `err` is `None` only when all sixteen steps succeed: the writes stop only at a failing step.
      if err.None? then Effect(mk, n', Pass)
      else if err.value.KeyError? then Effect(mk, n', Fail(err.value))
      else
        var c := Cleanup(mk, failing, DbRollback(dbP, ptP, s), err.value);
        Effect(c.0, n', Fail(c.1))
  }

  /**
   * What the cleanup after a store error at step `s` finds and leaves. The
   * database node is there once its first create succeeded, and the
   * partitioning node once allocated. Each delete fails exactly when the
   * backend fails deletes of its path; the first delete that fails raises
   * its error and leaves the store as it stands. When the very first create
   * failed, the database node's delete finds nothing and raises
   * KEY_DOES_NOT_EXIST.
   */
  lemma DbRollbackFinds(m: Store, failing: Faults, n: nat, dbName: string, options: map<string, string>, handled: AdminError)
    requires DbPath(dbName) !in m
    ensures var dbP, ptP := DbPath(dbName), SeqPath(n);
      var s := DbStop(m, failing, n, dbName, options);
      var mk := Trace(m, DbPlan(dbP, ptP, options))[s];
      var c := Cleanup(mk, failing, DbRollback(dbP, ptP, s), handled);
      && (s == 0 ==> dbP !in mk && c == (mk, CssException(KeyDoesNotExist(dbP))))
      && (1 <= s < 16 ==> dbP in mk && (OpFailure(Deleted(dbP), failing, mk).None? <==> dbP !in failing.deletes))
      && (2 <= s < 16 ==> ptP in Apply(mk, Deleted(dbP))
                          && (OpFailure(Deleted(ptP), failing, Apply(mk, Deleted(dbP))).None? <==> ptP !in failing.deletes))
      && (1 <= s ==> ApplyAll(mk, DbRollback(dbP, ptP, s))
                     == if s >= 2 then Apply(Apply(mk, Deleted(dbP)), Deleted(ptP)) else Apply(mk, Deleted(dbP)))
      && (1 <= s < 16 ==>
            c == if dbP in failing.deletes then (mk, CssException(BackendFailure(dbP)))
                 else if s >= 2 && ptP in failing.deletes then (Apply(mk, Deleted(dbP)), CssException(BackendFailure(ptP)))
                 else (ApplyAll(mk, DbRollback(dbP, ptP, s)), handled))
  {
    var dbP, ptP := DbPath(dbName), SeqPath(n);
    var plan := DbPlan(dbP, ptP, options);
    var s := DbStop(m, failing, n, dbName, options);
    var mk := Trace(m, plan)[s];
    TraceApplyAll(m, plan, s);
    if s == 0 {
      CleanupFirst(mk, failing, Deleted(dbP), [], handled);
    }
    if 1 <= s < 16 {
      DbPendingUntilCommit(m, dbName, n, options, s);
    }
    if 2 <= s < 16 {
      DbPrefixHasPartition(m, dbName, n, options, s);
      DbPartitionApart(dbName, n);
      assert InSubtree(ptP, ptP);
      DeletedEffect(mk, dbP);
    }
    if s >= 2 {
      assert DbRollback(dbP, ptP, s) == [Deleted(dbP)] + [Deleted(ptP)];
      ApplyAllAppend(mk, [Deleted(dbP)], [Deleted(ptP)]);
      CleanupFirst(mk, failing, Deleted(dbP), [Deleted(ptP)], handled);
      CleanupFirst(Apply(mk, Deleted(dbP)), failing, Deleted(ptP), [], handled);
    }
    if s == 1 {
      assert DbRollback(dbP, ptP, s) == [Deleted(dbP)] + [];
      CleanupFirst(mk, failing, Deleted(dbP), [], handled);
    }
  }

  /**
   * When the very first create fails on a failing path, the cleanup's delete
   * finds no database node and its KEY_DOES_NOT_EXIST replaces the backend
   * error; the store and the counter are untouched. The first create fails
   * in no other way once the guard has passed.
   */
  lemma CreateDbFirstFailureMasked(m: Store, failing: Faults, n: nat, dbName: string, options: map<string, string>)
    requires DbPath(dbName) !in m
    ensures var dbP := DbPath(dbName);
      && (DbStop(m, failing, n, dbName, options) == 0 <==> dbP in failing.writes)
      && (dbP in failing.writes ==>
            && OpFailure(Created(dbP, "PENDING"), failing, m) == Some(BackendFailure(dbP))
            && OpFailure(Deleted(dbP), failing, m) == Some(KeyDoesNotExist(dbP))
            && CreateDbSpec(m, failing, n, dbName, options) == Effect(m, n, Fail(CssException(KeyDoesNotExist(dbP)))))
  {
    var plan := DbPlan(DbPath(dbName), SeqPath(n), options);
    FirstStopStops(m, failing, plan, DbNeeds, options, 0);
    if DbPath(dbName) in failing.writes {
      DbRollbackFinds(m, failing, n, dbName, options, CssException(BackendFailure(DbPath(dbName))));
    }
  }

  /**
   * A backend that accepts the database node's create, then fails the
   * partitioning node's allocation and the cleanup's delete: `createDb`
   * raises the delete's error and the database stays behind, PENDING.
   */
  lemma CreateDbLeavesPending(m: Store, failing: Faults, n: nat, dbName: string, options: map<string, string>)
    requires DbPath(dbName) !in m && DbPath(dbName) !in failing.writes
    requires SeqPath(n) in failing.writes && DbPath(dbName) in failing.deletes
    ensures var dbP := DbPath(dbName);
      CreateDbSpec(m, failing, n, dbName, options)
        == Effect(Apply(m, Created(dbP, "PENDING")), n, Fail(CssException(BackendFailure(dbP))))
    ensures DbPath(dbName) in CreateDbSpec(m, failing, n, dbName, options).store
    ensures CreateDbSpec(m, failing, n, dbName, options).store[DbPath(dbName)] == "PENDING"
  {
    var dbP, ptP := DbPath(dbName), SeqPath(n);
    DbStopsAtAllocation(m, failing, n, dbName, options);
    var mk := Trace(m, DbPlan(dbP, ptP, options))[1];
    assert DbRollback(dbP, ptP, 1) == [Deleted(dbP)];
    assert Cleanup(mk, failing, [Deleted(dbP)], CssException(BackendFailure(ptP))) == (mk, CssException(BackendFailure(dbP)));
  }

  /** When the backend accepts the database node and refuses the partitioning node, the writes stop after the first create. */
  lemma DbStopsAtAllocation(m: Store, failing: Faults, n: nat, dbName: string, options: map<string, string>)
    requires DbPath(dbName) !in m && DbPath(dbName) !in failing.writes && SeqPath(n) in failing.writes
    ensures var plan := DbPlan(DbPath(dbName), SeqPath(n), options);
      && DbStop(m, failing, n, dbName, options) == 1
      && Trace(m, plan)[1] == Apply(m, Created(DbPath(dbName), "PENDING"))
      && StepError(plan[1], DbNeeds[1], options, failing, Trace(m, plan)[1]) == Some(CssException(BackendFailure(SeqPath(n))))
  {
    var dbP, ptP := DbPath(dbName), SeqPath(n);
    var plan := DbPlan(dbP, ptP, options);
    DbPlanNamed(dbP, ptP, options);
    FirstStopStops(m, failing, plan, DbNeeds, options, 0);
    TraceStep(m, plan, 0);
    assert StepError(plan[0], DbNeeds[0], options, failing, Trace(m, plan)[0]).None?;
    assert StepError(plan[1], DbNeeds[1], options, failing, Trace(m, plan)[1]).Some?;
  }

  /** `createDb` keeps the store a tree, however it ends. */
  lemma CreateDbKeepsClosed(m: Store, failing: Faults, n: nat, dbName: string, options: map<string, string>)
    requires AncestorClosed(m)
    ensures AncestorClosed(CreateDbSpec(m, failing, n, dbName, options).store)
  {
    var dbP, ptP := DbPath(dbName), SeqPath(n);
    if dbP !in m {
      var plan := DbPlan(dbP, ptP, options);
      var s := DbStop(m, failing, n, dbName, options);
      var mk := Trace(m, plan)[s];
      FirstStopStops(m, failing, plan, DbNeeds, options, 0);
      PrefixKeepsClosed(m, failing, plan, DbNeeds, options, s);
      if s < 16 {
        var err := StepError(plan[s], DbNeeds[s], options, failing, mk);
        DbRollbackFinds(m, failing, n, dbName, options, err.value);
      }
      if 1 <= s {
        DeletedKeepsClosed(mk, dbP);
        DeletedKeepsClosed(Apply(mk, Deleted(dbP)), ptP);
      }
    }
  }

  /** `CreateDbSpec` once the guard has passed, given where the writes stopped and the error that stopped them. */
  lemma CreateDbSpecAbsent(m: Store, failing: Faults, n: nat, dbName: string, options: map<string, string>,
                           s: nat, e: Outcome<AdminError>)
    requires DbPath(dbName) !in m && s == DbStop(m, failing, n, dbName, options)
    requires (e.Pass? <==> s == 16)
    requires e.Fail? ==> StepError(DbPlan(DbPath(dbName), SeqPath(n), options)[s], DbNeeds[s], options, failing,
                                   Trace(m, DbPlan(DbPath(dbName), SeqPath(n), options))[s]) == Some(e.error)
    ensures var dbP, ptP := DbPath(dbName), SeqPath(n);
      var mk := Trace(m, DbPlan(dbP, ptP, options))[s];
      var n' := if s >= 2 then n + 1 else n;
      CreateDbSpec(m, failing, n, dbName, options)
        == if e.Pass? then Effect(mk, n', Pass)
           else if e.error.KeyError? then Effect(mk, n', e)
           else Effect(Cleanup(mk, failing, DbRollback(dbP, ptP, s), e.error).0, n',
                       Fail(Cleanup(mk, failing, DbRollback(dbP, ptP, s), e.error).1))
  {
  }

  /**
   * `createDb` raises `DbExists` exactly when the database node is already
   * there, and then before touching the store or the counter: every other
   * error comes from a store call or an option lookup.
   */
  lemma CreateDbGuard(m: Store, failing: Faults, n: nat, dbName: string, options: map<string, string>)
    ensures var e := CreateDbSpec(m, failing, n, dbName, options);
      && (e.outcome == Fail(CssException(CssError.DbExists(dbName))) <==> DbPath(dbName) in m)
      && (DbPath(dbName) in m ==> e.store == m && e.counter == n)
      && (e.outcome.Fail? && DbPath(dbName) !in m ==> StoreError(e.outcome.error))
  {
    var dbP, ptP := DbPath(dbName), SeqPath(n);
    if dbP !in m {
      var plan := DbPlan(dbP, ptP, options);
      var s := DbStop(m, failing, n, dbName, options);
      if s < 16 {
        var mk := Trace(m, plan)[s];
        StepErrorIsStoreError(plan[s], DbNeeds[s], options, failing, mk);
        var err := StepError(plan[s], DbNeeds[s], options, failing, mk);
        if err.Some? {
          CleanupIsStoreError(mk, failing, DbRollback(dbP, ptP, s), err.value);
        }
      }
    }
  }

  /**
   * A successful `createDb` was given every option it looks up; a missing
   * one raises `KeyError` instead.
   */
  lemma CreateDbPassHadOptions(m: Store, failing: Faults, n: nat, dbName: string, options: map<string, string>)
    requires CreateDbSpec(m, failing, n, dbName, options).outcome.Pass?
    ensures && "nStripes" in options && "nSubStripes" in options && "overlap" in options
            && "dbGroup" in options && "objectIdIndex" in options
  {
    var plan := DbPlan(DbPath(dbName), SeqPath(n), options);
    var s := DbStop(m, failing, n, dbName, options);
    FirstStopStops(m, failing, plan, DbNeeds, options, 0);
    assert s == 16;
    DbNeedsListed();
    NeedMet(plan[2], DbNeeds[2], options, failing, Trace(m, plan)[2]);
    NeedMet(plan[3], DbNeeds[3], options, failing, Trace(m, plan)[3]);
    NeedMet(plan[4], DbNeeds[4], options, failing, Trace(m, plan)[4]);
    NeedMet(plan[5], DbNeeds[5], options, failing, Trace(m, plan)[5]);
    NeedMet(plan[8], DbNeeds[8], options, failing, Trace(m, plan)[8]);
  }

  /**
   * Where `createDb` leaves the store and the backend counter, by how it
   * ends. After a store error the cleanup either completes, and the error is
   * re-raised, or stops at the first delete that fails, whose error escapes.
   */
  lemma DbSpecCases(m: Store, failing: Faults, n: nat, dbName: string, options: map<string, string>)
    ensures var e := CreateDbSpec(m, failing, n, dbName, options);
      var dbP, ptP := DbPath(dbName), SeqPath(n);
      var plan := DbPlan(dbP, ptP, options);
      var s := DbStop(m, failing, n, dbName, options);
      var mk := ApplyAll(m, plan[..s]);
      && (e.outcome.Pass? ==> dbP !in m && s == 16 && e.store == mk && e.counter == n + 1)
      && (e.outcome.Fail? && e.outcome.error.KeyError? ==> dbP !in m && 2 <= s < 16 && e.store == mk && e.counter == n + 1)
      && (e.outcome.Fail? && e.outcome.error.CssException? ==>
            || (e.store == m && e.counter == n)
            || (&& dbP !in m && 1 <= s < 16 && e.counter == (if s >= 2 then n + 1 else n)
                && (dbP in failing.deletes ==> e.store == mk && e.outcome.error == CssException(BackendFailure(dbP)))
                && (dbP !in failing.deletes && s >= 2 && ptP in failing.deletes ==>
                      e.store == Apply(mk, Deleted(dbP)) && e.outcome.error == CssException(BackendFailure(ptP)))
                && (dbP !in failing.deletes && (s < 2 || ptP !in failing.deletes) ==>
                      && e.store == ApplyAll(mk, DbRollback(dbP, ptP, s))
                      && StepError(plan[s], DbNeeds[s], options, failing, mk) == Some(e.outcome.error))))
  {
    var dbP, ptP := DbPath(dbName), SeqPath(n);
    var plan := DbPlan(dbP, ptP, options);
    var s := DbStop(m, failing, n, dbName, options);
    FirstStopStops(m, failing, plan, DbNeeds, options, 0);
    TraceApplyAll(m, plan, s);
    DbNeedsListed();
    if dbP !in m {
      if s == 16 {
        CreateDbSpecAbsent(m, failing, n, dbName, options, s, Pass);
      } else {
        var err := StepError(plan[s], DbNeeds[s], options, failing, Trace(m, plan)[s]);
        CreateDbSpecAbsent(m, failing, n, dbName, options, s, Fail(err.value));
        if err.value.CssException? {
          DbCleanupResult(m, failing, n, dbName, options, err.value);
        }
      }
    }
  }

  /** The store and error the cleanup leaves once the database node was created, by which delete fails first. */
  lemma DbCleanupResult(m: Store, failing: Faults, n: nat, dbName: string, options: map<string, string>, handled: AdminError)
    requires DbPath(dbName) !in m
    ensures var dbP, ptP := DbPath(dbName), SeqPath(n);
      var s := DbStop(m, failing, n, dbName, options);
      var mk := Trace(m, DbPlan(dbP, ptP, options))[s];
      1 <= s < 16 ==>
        Cleanup(mk, failing, DbRollback(dbP, ptP, s), handled)
          == if dbP in failing.deletes then (mk, CssException(BackendFailure(dbP)))
             else if s >= 2 && ptP in failing.deletes then (Apply(mk, Deleted(dbP)), CssException(BackendFailure(ptP)))
             else (ApplyAll(mk, DbRollback(dbP, ptP, s)), handled)
  {
    DbRollbackFinds(m, failing, n, dbName, options, handled);
  }

  /**
   * What `createDb` leaves behind. Every key that was there keeps its value.
   * A store error whose cleanup completes leaves the old keys plus parents
   * of the two new nodes; a cleanup delete that fails leaves the database
   * PENDING, or the partitioning node, behind and raises its own error. A
   * missing option escapes with no cleanup, leaving the database PENDING and
   * its partitioning node allocated; success leaves the database READY with
   * the partitioning id taken from the allocated node.
   */
  lemma CreateDbOutcome(m: Store, failing: Faults, n: nat, dbName: string, options: map<string, string>)
    requires AncestorClosed(m) && SeqPath(n) !in m
    ensures var e := CreateDbSpec(m, failing, n, dbName, options);
      var dbP, ptP := DbPath(dbName), SeqPath(n);
      && (e.counter == n || e.counter == n + 1)
      && (forall k :: k in m ==> k in e.store && e.store[k] == m[k])
      && (e.outcome.Fail? && e.outcome.error.CssException? && dbP !in failing.deletes && ptP !in failing.deletes ==>
            forall k :: k in e.store ==> k in m || k in Ancestors(dbP) || k in Ancestors(ptP))
      && (e.outcome.Fail? && e.outcome.error.CssException? ==>
            || (forall k :: k in e.store ==> k in m || k in Ancestors(dbP) || k in Ancestors(ptP))
            || (&& dbP in failing.deletes && e.outcome.error == CssException(BackendFailure(dbP))
                && dbP in e.store && e.store[dbP] == "PENDING")
            || (&& ptP in failing.deletes && e.outcome.error == CssException(BackendFailure(ptP))
                && dbP !in e.store && ptP in e.store))
      && (e.outcome.Fail? && e.outcome.error.KeyError? ==>
            e.counter == n + 1 && ptP in e.store && dbP in e.store && e.store[dbP] == "PENDING")
      && (e.outcome.Pass? ==>
            && e.counter == n + 1 && dbP in e.store && e.store[dbP] == "READY"
            && dbP + "/partitioningId" in e.store && e.store[dbP + "/partitioningId"] == Last10(ptP))
  {
    var dbP, ptP := DbPath(dbName), SeqPath(n);
    var plan := DbPlan(dbP, ptP, options);
    var s := DbStop(m, failing, n, dbName, options);
    DbSpecCases(m, failing, n, dbName, options);
    if dbP !in m {
      DbPrefixWrites(m, dbName, n, options, s);
      if 1 <= s < 16 {
        DbRollbackRestores(m, dbName, n, options, s);
        DbPendingUntilCommit(m, dbName, n, options, s);
        var mk := ApplyAll(m, plan[..s]);
        DeletedEffect(mk, dbP);
        assert InSubtree(dbP, dbP);
      }
      if 2 <= s < 16 {
        DbPrefixHasPartition(m, dbName, n, options, s);
      }
      if s == 16 {
        assert plan[..16] == plan;
        DbCommitValues(m, dbName, n, options);
      }
    }
  }
}
