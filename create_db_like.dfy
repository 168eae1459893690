/**
 * The writes of `createDbLike`: the new database node (PENDING, then
 * READY), the four attributes copied one by one from the template
 * database, and the lock section. No partitioning node is allocated: the
 * copy shares the template's partitioning id.
 */
module CreateDbLikePlan {
  import opened Results
  import opened KvStore
  import opened AdminPlan

  // ----- the plan -----

  /** `_copyKeyValue`: for each name, a get of the source's key and a create of the destination's key with its value. */
  function CopyOps(dst: string, src: string, names: seq<string>): (ops: seq<Mutation>)
    ensures |ops| == |names| && NoDeletes(ops)
    ensures forall i :: 0 <= i < |names| ==> ops[i] == Copied(dst + "/" + names[i], src + "/" + names[i])
  {
    seq(|names|, i requires 0 <= i < |names| => Copied(dst + "/" + names[i], src + "/" + names[i]))
  }

  /** The values a copy reads: the source's key for each name, "" where it is missing. */
  function SourceValues(m: Store, src: string, names: seq<string>): (vs: seq<string>)
    ensures |vs| == |names|
  {
    seq(|names|, i requires 0 <= i < |names| => if src + "/" + names[i] in m then m[src + "/" + names[i]] else "")
  }

  /** The writes of `createDbLike` when every step succeeds. */
  function LikePlan(dbP: string, dbS: string): (plan: seq<Mutation>)
    ensures |plan| == 12
  {
    [Created(dbP, "PENDING")] + CopyOps(dbP, dbS, DbFields) + LockOps(dbP) + [SetTo(dbP, "READY")]
  }

  /** The twelve steps of a `createDbLike` plan, by segment. */
  ghost predicate LikePlanShape(plan: seq<Mutation>, dbP: string, dbS: string)
  {
    && |plan| == 12 && plan[0] == Created(dbP, "PENDING")
    && plan[1..5] == CopyOps(dbP, dbS, DbFields) && plan[5..11] == LockOps(dbP)
    && plan[11] == SetTo(dbP, "READY")
  }

  lemma LikePlanNamed(dbP: string, dbS: string)
    ensures LikePlanShape(LikePlan(dbP, dbS), dbP, dbS)
  {
  }

  /** Every write of a `createDbLike` plan lies below the new database node, and none deletes. */
  lemma LikePlanUnder(dbP: string, dbS: string)
    ensures AllUnder(LikePlan(dbP, dbS), dbP, dbP) && NoDeletes(LikePlan(dbP, dbS))
    ensures Avoids(LikePlan(dbP, dbS)[1..11], dbP)
  {
    var copy, lock := CopyOps(dbP, dbS, DbFields), LockOps(dbP);
    var first, last := [Created(dbP, "PENDING")], [SetTo(dbP, "READY")];
    forall i | 0 <= i < 4 ensures InSubtree(copy[i].path, dbP) && copy[i].path != dbP {
      assert copy[i].path[..|dbP|] == dbP && copy[i].path[|dbP|] == '/';
    }
    forall i | 0 <= i < 6 ensures InSubtree(lock[i].path, dbP) && lock[i].path != dbP {
      assert lock[i].path[..|dbP|] == dbP && lock[i].path[|dbP|] == '/';
    }
    assert InSubtree(dbP, dbP);
    assert AllUnder(first, dbP, dbP) && AllUnder(last, dbP, dbP);
    AllUnderAppend(first, copy, dbP, dbP);
    AllUnderAppend(first + copy, lock, dbP, dbP);
    AllUnderAppend(first + copy + lock, last, dbP, dbP);
    AvoidsAppend(copy, lock, dbP);
    assert LikePlan(dbP, dbS)[1..11] == copy + lock;
  }

  // ----- a copy reads the template -----

  /** Copying keys that exist outside `dst` writes exactly what creating them with the source's values writes. */
  lemma {:induction false} CopyOpsAsCreates(m: Store, dst: string, src: string, names: seq<string>)
    requires forall i :: 0 <= i < |names| ==> src + "/" + names[i] in m && !InSubtree(src + "/" + names[i], dst)
    ensures ApplyAll(m, CopyOps(dst, src, names)) == ApplyAll(m, ChildOps(dst, names, SourceValues(m, src, names)))
  {
    if names != [] {
      var n := |names|;
      var init := names[..n - 1];
      var vs := SourceValues(m, src, names);
      var copies, creates := CopyOps(dst, src, names), ChildOps(dst, names, vs);
      assert copies[..n - 1] == CopyOps(dst, src, init);
      assert vs[..n - 1] == SourceValues(m, src, init);
      assert creates[..n - 1] == ChildOps(dst, init, vs[..n - 1]);
      CopyOpsAsCreates(m, dst, src, init);
      var m1 := ApplyAll(m, creates[..n - 1]);
      ChildOpsUnder(dst, init, vs[..n - 1], dst);
      WritesUnder(m, creates[..n - 1], dst, dst);
      var source := src + "/" + names[n - 1];
      assert source in m1 && m1[source] == m[source] == vs[n - 1];
    }
  }

  /** The lock keys of a database are not among its attributes. */
  lemma LockKeysNotFields(dbP: string)
    ensures forall k :: k in ChildPaths(dbP + "/LOCK", LockFields) ==> k !in ChildPaths(dbP, DbFields) && k != dbP
  {
    forall k | k in ChildPaths(dbP + "/LOCK", LockFields) ensures k !in ChildPaths(dbP, DbFields) && k != dbP {
      var g :| g in LockFields && k == dbP + "/LOCK" + "/" + g;
      LockKeyApart(dbP, g);
    }
  }

  /**
   * A committed copy: READY, each attribute holding the template's value
   * (so the same partitioning id), six empty lock keys, every other key as
   * it was; and no key added but these and the new node's missing parents.
   */
  lemma LikeCommitValues(m: Store, dbName: string, dbName2: string)
    requires AncestorClosed(m) && DbPath(dbName) !in m
    requires forall f :: f in DbFields ==> DbPath(dbName2) + "/" + f in m
    ensures var dbP, dbS := DbPath(dbName), DbPath(dbName2);
      var after := ApplyAll(m, LikePlan(dbP, dbS));
      && after.Keys == m.Keys + Ancestors(dbP) + {dbP, dbP + "/LOCK"} + ChildPaths(dbP, DbFields) + ChildPaths(dbP + "/LOCK", LockFields)
      && after[dbP] == "READY"
      && (forall f :: f in DbFields ==> dbP + "/" + f in after && after[dbP + "/" + f] == m[dbS + "/" + f])
      && (forall g :: g in LockFields ==> dbP + "/LOCK/" + g in after && after[dbP + "/LOCK/" + g] == "")
      && (forall k :: k in m ==> after[k] == m[k])
  {
    var dbP, dbS := DbPath(dbName), DbPath(dbName2);
    AbsentRootEmptySubtree(m, dbP);
    var m1 := Apply(m, Created(dbP, "PENDING"));
    CreatedEffect(m, dbP, "PENDING");
    forall i | 0 <= i < |DbFields|
      ensures && dbS + "/" + DbFields[i] in m && dbS + "/" + DbFields[i] in m1
              && m1[dbS + "/" + DbFields[i]] == m[dbS + "/" + DbFields[i]] && !InSubtree(dbS + "/" + DbFields[i], dbP)
    {
      assert DbFields[i] in DbFields;
    }
    CopyOpsAsCreates(m1, dbP, dbS, DbFields);
    var vs := SourceValues(m1, dbS, DbFields);
    var m2 := ApplyAll(m1, ChildOps(dbP, DbFields, vs));
    DbFieldsWellFormed();
    LockFieldsWellFormed();
    ChildOpsEffect(m1, dbP, DbFields, vs);
    var m3 := ApplyAll(m2, LockOps(dbP));
    ChildOpsEffect(m2, dbP + "/LOCK", LockFields, ["", "", "", "", "", ""]);
    LockNode(dbP);
    LikePlanStages(m, dbP, dbS);
    LockKeysNotFields(dbP);
    LikeKeys(m, m1, m2, m3, dbP);
    LikeFieldValues(m, m1, m2, m3, dbP, dbS, vs);
    LikeLockValues(m3, dbP);
    LikeKeepsOthers(m, m1, m2, m3, dbP);
  }

  /** The lock section's node is a child of the database node. */
  lemma LockNode(dbP: string)
    requires dbP != ""
    ensures Ancestors(dbP + "/LOCK") == Ancestors(dbP) + {dbP}
  {
    assert '/' !in "LOCK";
    assert dbP + "/LOCK" == dbP + "/" + "LOCK";
    AncestorsOfChild(dbP, "LOCK");
  }

  /** The plan is its first create, the copies, the lock writes and the final set, applied in turn. */
  lemma LikePlanStages(m: Store, dbP: string, dbS: string)
    ensures var m1 := Apply(m, Created(dbP, "PENDING"));
      ApplyAll(m, LikePlan(dbP, dbS)) == ApplyAll(ApplyAll(m1, CopyOps(dbP, dbS, DbFields)), LockOps(dbP))[dbP := "READY"]
  {
    var head, copies, lock := [Created(dbP, "PENDING")], CopyOps(dbP, dbS, DbFields), LockOps(dbP);
    ApplyAllAppend(m, head, copies);
    ApplyAllAppend(m, head + copies, lock);
    ApplyAllAppend(m, head + copies + lock, [SetTo(dbP, "READY")]);
    assert ApplyAll(m, head) == Apply(m, Created(dbP, "PENDING"));
  }

  /** The keys half of `LikeCommitValues`, over the intermediate stores. */
  lemma LikeKeys(m: Store, m1: Store, m2: Store, m3: Store, dbP: string)
    requires m1.Keys == m.Keys + Ancestors(dbP) + {dbP}
    requires m2.Keys == m1.Keys + (Ancestors(dbP) + {dbP}) + ChildPaths(dbP, DbFields)
    requires m3.Keys == m2.Keys + (Ancestors(dbP + "/LOCK") + {dbP + "/LOCK"}) + ChildPaths(dbP + "/LOCK", LockFields)
    requires Ancestors(dbP + "/LOCK") == Ancestors(dbP) + {dbP}
    ensures m3[dbP := "READY"].Keys
      == m.Keys + Ancestors(dbP) + {dbP, dbP + "/LOCK"} + ChildPaths(dbP, DbFields) + ChildPaths(dbP + "/LOCK", LockFields)
  {
  }

  /** Each attribute of the copy holds the template's value. */
  lemma LikeFieldValues(m: Store, m1: Store, m2: Store, m3: Store, dbP: string, dbS: string, vs: seq<string>)
    requires |vs| == |DbFields| && vs == SourceValues(m1, dbS, DbFields)
    requires forall i :: 0 <= i < |DbFields| ==>
      dbS + "/" + DbFields[i] in m && dbS + "/" + DbFields[i] in m1 && m1[dbS + "/" + DbFields[i]] == m[dbS + "/" + DbFields[i]]
    requires forall i :: 0 <= i < |DbFields| ==> dbP + "/" + DbFields[i] in m2 && m2[dbP + "/" + DbFields[i]] == vs[i]
    requires forall k :: k in m2 && k !in ChildPaths(dbP + "/LOCK", LockFields) ==> k in m3 && m3[k] == m2[k]
    requires forall k :: k in ChildPaths(dbP + "/LOCK", LockFields) ==> k !in ChildPaths(dbP, DbFields) && k != dbP
    ensures forall f :: f in DbFields ==> dbP + "/" + f in m3[dbP := "READY"] && m3[dbP := "READY"][dbP + "/" + f] == m[dbS + "/" + f]
  {
    forall f | f in DbFields ensures dbP + "/" + f in m3[dbP := "READY"] && m3[dbP := "READY"][dbP + "/" + f] == m[dbS + "/" + f] {
      var i :| 0 <= i < |DbFields| && DbFields[i] == f;
      assert vs[i] == m1[dbS + "/" + f];
      assert dbP + "/" + f in ChildPaths(dbP, DbFields);
      assert |dbP + "/" + f| > |dbP|;
    }
  }

  /** The six lock keys are empty. */
  lemma LikeLockValues(m3: Store, dbP: string)
    requires forall i :: 0 <= i < |LockFields| ==> dbP + "/LOCK" + "/" + LockFields[i] in m3 && m3[dbP + "/LOCK" + "/" + LockFields[i]] == ["", "", "", "", "", ""][i]
    ensures forall g :: g in LockFields ==> dbP + "/LOCK/" + g in m3[dbP := "READY"] && m3[dbP := "READY"][dbP + "/LOCK/" + g] == ""
  {
    forall g | g in LockFields ensures dbP + "/LOCK/" + g in m3[dbP := "READY"] && m3[dbP := "READY"][dbP + "/LOCK/" + g] == "" {
      var i :| 0 <= i < |LockFields| && LockFields[i] == g;
      LockPath(dbP, g);
      assert |dbP + "/LOCK/" + g| > |dbP|;
    }
  }

  /** The keys that were there keep their values: none lies below the new node. */
  lemma LikeKeepsOthers(m: Store, m1: Store, m2: Store, m3: Store, dbP: string)
    requires dbP !in m && forall k :: k in m ==> !InSubtree(k, dbP)
    requires forall k :: k in m ==> k in m1 && m1[k] == m[k]
    requires forall k :: k in m1 && k !in ChildPaths(dbP, DbFields) ==> k in m2 && m2[k] == m1[k]
    requires forall k :: k in m2 && k !in ChildPaths(dbP + "/LOCK", LockFields) ==> k in m3 && m3[k] == m2[k]
    ensures forall k :: k in m ==> k in m3[dbP := "READY"] && m3[dbP := "READY"][k] == m[k]
  {
  }

  // ----- running the plan -----

  /** How far the writes of `createDbLike` get from store `m`. */
  ghost function LikeStop(m: Store, failing: Faults, dbName: string, dbName2: string): (s: nat)
    ensures s <= 12
  {
    FirstStop(m, failing, LikePlan(DbPath(dbName), DbPath(dbName2)), NoNeeds(12), map[], 0)
  }

  /**
   * `createDbLike` as a function of the store: refused when the new
   * database exists, then when the template does not; otherwise the writes
   * run up to their first failure, and a failure runs the cleanup, deleting
   * the new database node, and re-raises. A delete that fails raises its own
   * error instead (it always fails when the very first create did). The
   * backend counter is never advanced.
   */
  ghost function CreateDbLikeSpec(m: Store, failing: Faults, n: nat, dbName: string, dbName2: string): Effect
  {
    var dbP, dbS := DbPath(dbName), DbPath(dbName2);
    if dbP in m then Effect(m, n, Fail(CssException(CssError.DbExists(dbName))))
    else if dbS !in m then Effect(m, n, Fail(CssException(DbDoesNotExist(dbName2))))
    else
      var plan := LikePlan(dbP, dbS);
      var s := LikeStop(m, failing, dbName, dbName2);
      var mk := Trace(m, plan)[s];
      var err := if s == 12 then None else StepError(plan[s], None, map[], failing, mk);
      if err.None? then Effect(mk, n, Pass)
      else
        var c := Cleanup(mk, failing, [Deleted(dbP)], err.value);
        Effect(c.0, n, Fail(c.1))
  }

  /**
   * `createDbLike` checks the new database first and the template second:
   * `DbExists` exactly when the new database node is there, `DbDoesNotExist`
   * of the template exactly when it is absent and the new one is too, both
   * before touching the store. Every other error comes from a store call.
   */
  lemma CreateDbLikeGuards(m: Store, failing: Faults, n: nat, dbName: string, dbName2: string)
    ensures var e := CreateDbLikeSpec(m, failing, n, dbName, dbName2);
      && (e.outcome == Fail(CssException(CssError.DbExists(dbName))) <==> DbPath(dbName) in m)
      && (e.outcome == Fail(CssException(DbDoesNotExist(dbName2))) <==> DbPath(dbName) !in m && DbPath(dbName2) !in m)
      && (DbPath(dbName) in m || DbPath(dbName2) !in m ==> e.store == m)
      && (e.outcome.Fail? && DbPath(dbName) !in m && DbPath(dbName2) in m ==> StoreError(e.outcome.error))
  {
    var dbP, dbS := DbPath(dbName), DbPath(dbName2);
    if dbP !in m && dbS in m {
      var plan := LikePlan(dbP, dbS);
      var s := LikeStop(m, failing, dbName, dbName2);
      if s < 12 {
        var mk := Trace(m, plan)[s];
        StepErrorIsStoreError(plan[s], None, map[], failing, mk);
        var err := StepError(plan[s], None, map[], failing, mk);
        if err.Some? {
          CleanupIsStoreError(mk, failing, [Deleted(dbP)], err.value);
        }
      }
    }
  }

  /** `CreateDbLikeSpec` once both guards have passed, given where the writes stopped and the error that stopped them. */
  lemma CreateDbLikeSpecAbsent(m: Store, failing: Faults, n: nat, dbName: string, dbName2: string,
                               s: nat, e: Outcome<AdminError>)
    requires DbPath(dbName) !in m && DbPath(dbName2) in m && s == LikeStop(m, failing, dbName, dbName2)
    requires (e.Pass? <==> s == 12)
    requires e.Fail? ==> StepError(LikePlan(DbPath(dbName), DbPath(dbName2))[s], NoNeeds(12)[s], map[], failing,
                                   Trace(m, LikePlan(DbPath(dbName), DbPath(dbName2)))[s]) == Some(e.error)
    ensures var dbP := DbPath(dbName);
      var mk := Trace(m, LikePlan(dbP, DbPath(dbName2)))[s];
      CreateDbLikeSpec(m, failing, n, dbName, dbName2)
        == if e.Pass? then Effect(mk, n, Pass)
           else Effect(Cleanup(mk, failing, [Deleted(dbP)], e.error).0, n, Fail(Cleanup(mk, failing, [Deleted(dbP)], e.error).1))
  {
  }

  /**
   * The cleanup finds the new database node, still PENDING, exactly when
   * the first create succeeded. Its delete then fails exactly when the
   * backend fails deletes of that path, raising the backend error and
   * leaving the store as it stands; otherwise the handled error is
   * re-raised. With no node, the delete raises KEY_DOES_NOT_EXIST.
   */
  lemma LikeRollbackFinds(m: Store, failing: Faults, dbName: string, dbName2: string, handled: AdminError)
    requires DbPath(dbName) !in m
    ensures var dbP := DbPath(dbName);
      var s := LikeStop(m, failing, dbName, dbName2);
      var mk := Trace(m, LikePlan(dbP, DbPath(dbName2)))[s];
      var c := Cleanup(mk, failing, [Deleted(dbP)], handled);
      && (s == 0 ==> dbP !in mk && c == (mk, CssException(KeyDoesNotExist(dbP))))
      && (1 <= s < 12 ==> dbP in mk && mk[dbP] == "PENDING")
      && (1 <= s < 12 ==>
            c == if dbP in failing.deletes then (mk, CssException(BackendFailure(dbP))) else (Apply(mk, Deleted(dbP)), handled))
  {
    var dbP, dbS := DbPath(dbName), DbPath(dbName2);
    var plan := LikePlan(dbP, dbS);
    var s := LikeStop(m, failing, dbName, dbName2);
    var mk := Trace(m, plan)[s];
    TraceApplyAll(m, plan, s);
    CleanupFirst(mk, failing, Deleted(dbP), [], handled);
    assert [Deleted(dbP)] + [] == [Deleted(dbP)];
    if 1 <= s < 12 {
      FirstStopStops(m, failing, plan, NoNeeds(12), map[], 0);
      LikePlanUnder(dbP, dbS);
      PendingUntilCommit(m, plan, dbP, s);
    }
  }

  /**
   * When the very first create fails on a failing path, the cleanup's delete
   * finds no database node and its KEY_DOES_NOT_EXIST replaces the backend
   * error, with the store untouched. The first create fails in no other way
   * once the guards have passed.
   */
  lemma CreateDbLikeFirstFailureMasked(m: Store, failing: Faults, n: nat, dbName: string, dbName2: string)
    requires DbPath(dbName) !in m && DbPath(dbName2) in m
    ensures var dbP := DbPath(dbName);
      && (LikeStop(m, failing, dbName, dbName2) == 0 <==> dbP in failing.writes)
      && (dbP in failing.writes ==>
            && OpFailure(Created(dbP, "PENDING"), failing, m) == Some(BackendFailure(dbP))
            && OpFailure(Deleted(dbP), failing, m) == Some(KeyDoesNotExist(dbP))
            && CreateDbLikeSpec(m, failing, n, dbName, dbName2) == Effect(m, n, Fail(CssException(KeyDoesNotExist(dbP)))))
  {
    FirstStopStops(m, failing, LikePlan(DbPath(dbName), DbPath(dbName2)), NoNeeds(12), map[], 0);
    if DbPath(dbName) in failing.writes {
      LikeRollbackFinds(m, failing, dbName, dbName2, CssException(BackendFailure(DbPath(dbName))));
    }
  }

  /** `createDbLike` keeps the store a tree, however it ends. */
  lemma CreateDbLikeKeepsClosed(m: Store, failing: Faults, n: nat, dbName: string, dbName2: string)
    requires AncestorClosed(m)
    ensures AncestorClosed(CreateDbLikeSpec(m, failing, n, dbName, dbName2).store)
  {
    var dbP, dbS := DbPath(dbName), DbPath(dbName2);
    if dbP !in m && dbS in m {
      var plan := LikePlan(dbP, dbS);
      var s := LikeStop(m, failing, dbName, dbName2);
      var mk := Trace(m, plan)[s];
      FirstStopStops(m, failing, plan, NoNeeds(12), map[], 0);
      PrefixKeepsClosed(m, failing, plan, NoNeeds(12), map[], s);
      if s < 12 {
        LikeRollbackFinds(m, failing, dbName, dbName2, StepError(plan[s], None, map[], failing, mk).value);
      }
      DeletedKeepsClosed(mk, dbP);
    }
  }

  /**
   * Where `createDbLike` leaves the store: unchanged after a guard, the
   * plan's prefix, or after a failure the prefix rolled back with the error
   * re-raised, or the prefix left in place when the cleanup's delete fails.
   */
  lemma LikeSpecCases(m: Store, failing: Faults, n: nat, dbName: string, dbName2: string)
    ensures var e := CreateDbLikeSpec(m, failing, n, dbName, dbName2);
      var dbP, dbS := DbPath(dbName), DbPath(dbName2);
      var plan := LikePlan(dbP, dbS);
      var s := LikeStop(m, failing, dbName, dbName2);
      var mk := ApplyAll(m, plan[..s]);
      && e.counter == n
      && (e.outcome.Pass? ==> dbP !in m && dbS in m && s == 12 && e.store == mk)
      && (e.outcome.Fail? ==>
            || e.store == m
            || (&& dbP !in m && 1 <= s < 12
                && (dbP in failing.deletes ==> e.store == mk && e.outcome.error == CssException(BackendFailure(dbP)))
                && (dbP !in failing.deletes ==>
                      e.store == Apply(mk, Deleted(dbP)) && StepError(plan[s], None, map[], failing, mk) == Some(e.outcome.error))))
  {
    var dbP, dbS := DbPath(dbName), DbPath(dbName2);
    var plan := LikePlan(dbP, dbS);
    var s := LikeStop(m, failing, dbName, dbName2);
    FirstStopStops(m, failing, plan, NoNeeds(12), map[], 0);
    TraceApplyAll(m, plan, s);
    if dbP !in m && dbS in m && s < 12 {
      LikeRollbackFinds(m, failing, dbName, dbName2, StepError(plan[s], None, map[], failing, Trace(m, plan)[s]).value);
    }
  }

  /**
   * A `createDbLike` that fails leaves every key that was there with its
   * value. When its cleanup completes it adds no key but parents of the new
   * database node; when the cleanup's delete fails, the new node stays
   * PENDING with what was written below it, and the delete's error escapes.
   * One that succeeds (for a name without '/') adds the database READY with
   * the template's attributes, the partitioning id among them. The backend
   * counter is unchanged either way: no partitioning is allocated.
   */
  lemma CreateDbLikeOutcome(m: Store, failing: Faults, n: nat, dbName: string, dbName2: string)
    requires AncestorClosed(m)
    ensures var e := CreateDbLikeSpec(m, failing, n, dbName, dbName2);
      var dbP, dbS := DbPath(dbName), DbPath(dbName2);
      && e.counter == n
      && (e.outcome.Fail? ==> forall k :: k in m ==> k in e.store && e.store[k] == m[k])
      && (e.outcome.Fail? && dbP !in failing.deletes ==> forall k :: k in e.store ==> k in m || k in Ancestors(dbP))
      && (e.outcome.Fail? ==>
            || (forall k :: k in e.store ==> k in m || k in Ancestors(dbP))
            || (&& e.outcome.error == CssException(BackendFailure(dbP)) && dbP in e.store && e.store[dbP] == "PENDING"
                && forall k :: k in e.store ==> k in m || k in Ancestors(dbP) || InSubtree(k, dbP)))
      && (e.outcome.Pass? && '/' !in dbName ==>
            && dbP in e.store && e.store[dbP] == "READY"
            && forall f :: f in DbFields ==>
                 dbS + "/" + f in m && dbP + "/" + f in e.store && e.store[dbP + "/" + f] == m[dbS + "/" + f])
  {
    var dbP, dbS := DbPath(dbName), DbPath(dbName2);
    var plan := LikePlan(dbP, dbS);
    var s := LikeStop(m, failing, dbName, dbName2);
    LikeSpecCases(m, failing, n, dbName, dbName2);
    LikePlanUnder(dbP, dbS);
    if dbP !in m && 1 <= s < 12 {
      RollbackRestores(m, plan, dbP, s);
      PendingUntilCommit(m, plan, dbP, s);
      PlanPrefixKeys(m, plan, dbP, s);
      AbsentRootEmptySubtree(m, dbP);
      assert AllUnder(plan[..s], dbP, dbP) && NoDeletes(plan[..s]);
      WritesUnder(m, plan[..s], dbP, dbP);
    }
    if dbP !in m && dbS in m && s == 12 && '/' !in dbName {
      assert plan[..12] == plan;
      LikeCompleteReadsTemplate(m, failing, dbName, dbName2);
    }
  }

  /** A plan that runs to the end found each template attribute, so the copy holds the template's values. */
  lemma LikeCompleteReadsTemplate(m: Store, failing: Faults, dbName: string, dbName2: string)
    requires AncestorClosed(m) && DbPath(dbName) !in m && DbPath(dbName2) in m && '/' !in dbName
    requires LikeStop(m, failing, dbName, dbName2) == 12
    ensures var dbP, dbS := DbPath(dbName), DbPath(dbName2);
      var after := ApplyAll(m, LikePlan(dbP, dbS));
      && dbP in after && after[dbP] == "READY"
      && forall f :: f in DbFields ==> dbS + "/" + f in m && dbP + "/" + f in after && after[dbP + "/" + f] == m[dbS + "/" + f]
  {
    var dbP, dbS := DbPath(dbName), DbPath(dbName2);
    var plan := LikePlan(dbP, dbS);
    FirstStopStops(m, failing, plan, NoNeeds(12), map[], 0);
    LikePlanUnder(dbP, dbS);
    LikePlanNamed(dbP, dbS);
    forall i | 0 <= i < 4 ensures plan[1 + i] == Copied(dbP + "/" + DbFields[i], dbS + "/" + DbFields[i]) {
      assert plan[1 + i] == plan[1..5][i];
    }
    LikeTemplateComplete(m, failing, dbName, dbName2, plan);
    LikeCommitValues(m, dbName, dbName2);
    assert dbP + "/LOCK" in ApplyAll(m, plan);
    forall f | f in DbFields ensures dbP + "/" + f in ApplyAll(m, plan) {
      assert dbP + "/" + f in ChildPaths(dbP, DbFields);
    }
  }

  /**
   * When every copy succeeds, each template attribute was there before the
   * plan began. (With a '/' inside the new name a template key could be one
   * of the parents the first create adds, and a copy would read "" from it.)
   */
  lemma LikeTemplateComplete(m: Store, failing: Faults, dbName: string, dbName2: string, plan: seq<Mutation>)
    requires AncestorClosed(m) && DbPath(dbName) !in m && DbPath(dbName2) in m && '/' !in dbName
    requires |plan| == 12 && AllUnder(plan, DbPath(dbName), DbPath(dbName)) && NoDeletes(plan)
    requires forall i :: 0 <= i < 4 ==> plan[1 + i] == Copied(DbPath(dbName) + "/" + DbFields[i], DbPath(dbName2) + "/" + DbFields[i])
    requires StopsAt(m, failing, plan, NoNeeds(12), map[], 12)
    ensures forall f :: f in DbFields ==> DbPath(dbName2) + "/" + f in m
  {
    var dbP, dbS := DbPath(dbName), DbPath(dbName2);
    DbFieldsWellFormed();
    forall f | f in DbFields ensures dbS + "/" + f in m {
      var i :| 0 <= i < 4 && DbFields[i] == f;
      CopySucceeded(m, failing, plan, NoNeeds(12), map[], 1 + i);
      PlanPrefixKeys(m, plan, dbP, 1 + i);
      TemplateKeyApart(m, dbName, dbName2, f);
    }
  }

  /** A template key that is not stored is neither below the new database node nor one of its parents. */
  lemma TemplateKeyApart(m: Store, dbName: string, dbName2: string, f: string)
    requires AncestorClosed(m) && DbPath(dbName) !in m && DbPath(dbName2) in m && '/' !in dbName && '/' !in f
    ensures var src := DbPath(dbName2) + "/" + f;
      !InSubtree(src, DbPath(dbName)) && src !in Ancestors(DbPath(dbName))
  {
    var dbP, dbS := DbPath(dbName), DbPath(dbName2);
    var src := dbS + "/" + f;
    if InSubtree(src, dbP) {
      SubtreeOfChild(dbP, dbS, f);
      if src == dbP {
        CharAfterSlash(dbS, f, -1);
      } else if dbS != dbP {
        SubtreeHasAncestor(dbS, dbP);
      }
    }
    forall j | 0 < j < |dbP| && j != 10 ensures dbP[j] != '/' {
      if j < 11 {
        assert dbP[j] == "/DATABASES/"[j];
      } else {
        assert dbP[j] == dbName[j - 11];
      }
    }
  }
}
