/**
 * The administrative client (`QservAdminImpl`): creating and dropping
 * databases and tables in the metadata store as a sequence of single-key
 * writes. A new entity is first created with value "PENDING", filled in,
 * and only then set to "READY"; when a backend call fails the entity is
 * deleted again and the error re-raised.
 */
module QservAdmin {
  import opened Results
  import opened Decimal
  import opened KvStore
  import opened AdminPlan
  import opened CreateDbPlan
  import opened CreateDbLikePlan
  import opened DropDbPlan
  import opened CreateTablePlan

  class QservAdminImpl {
    const css: Css

    constructor (css: Css)
      ensures this.css == css
    {
      this.css := css;
    }

    /** `_dbExists`; a database that is absent has nothing stored below it. */
    function DbExists(dbName: string): (r: bool)
      requires AncestorClosed(css.entries)
      reads css
      ensures r <==> DbPath(dbName) in css.entries
      ensures !r ==> forall k :: k in css.entries ==> !InSubtree(k, DbPath(dbName))
    {
      if css.Exists(DbPath(dbName)) then true
      else
        AbsentRootEmptySubtree(css.entries, DbPath(dbName));
        false
    }

    /** `_tableExists`; a table that is absent has nothing stored below it. */
    function TableExists(dbName: string, tableName: string): (r: bool)
      requires AncestorClosed(css.entries)
      reads css
      ensures r <==> TablePath(dbName, tableName) in css.entries
      ensures !r ==> forall k :: k in css.entries ==> !InSubtree(k, TablePath(dbName, tableName))
    {
      if css.Exists(TablePath(dbName, tableName)) then true
      else
        AbsentRootEmptySubtree(css.entries, TablePath(dbName, tableName));
        false
    }

    /** The store holds what the first `k` steps of `plan` make of `m`. */
    ghost predicate AtStep(m: Store, plan: seq<Mutation>, k: nat)
      reads css
    {
      k <= |plan| && css.entries == Trace(m, plan)[k]
    }

    /** Carries out step `k` of `plan`, a create or a set, as one backend call. */
    method Perform(ghost m: Store, ghost plan: seq<Mutation>, ghost needs: seq<Option<string>>,
                   ghost options: map<string, string>, ghost k: nat, op: Mutation) returns (r: Outcome<AdminError>)
      requires AtStep(m, plan, k)
      requires k < |plan| == |needs| && plan[k] == op && (op.Created? || op.SetTo?)
      requires needs[k].Some? ==> needs[k].value in options
      modifies css
      ensures css.counter == old(css.counter)
      ensures r.Pass? ==> AtStep(m, plan, k + 1) && FirstStop(m, css.failing, plan, needs, options, k) == FirstStop(m, css.failing, plan, needs, options, k + 1)
      ensures r.Fail? ==> && AtStep(m, plan, k) && FirstStop(m, css.failing, plan, needs, options, k) == k
                          && StepError(op, needs[k], options, css.failing, css.entries) == Some(r.error)
    {
      TraceStep(m, plan, k);
      var o: Outcome<CssError>;
      if op.Created? {
        o := css.Create(op.path, op.value);
      } else {
        o := css.Set(op.path, op.value);
      }
      r := Lift(o);
    }

    /** Step `k` of `plan`: looks up `options[key]`, raising `KeyError` when it is missing, and creates `p` with it. */
    method PerformWith(ghost m: Store, ghost plan: seq<Mutation>, ghost needs: seq<Option<string>>,
                       options: map<string, string>, ghost k: nat, p: string, key: string) returns (r: Outcome<AdminError>)
      requires AtStep(m, plan, k)
      requires k < |plan| == |needs| && plan[k] == Created(p, Opt(options, key)) && needs[k] == Some(key)
      modifies css
      ensures css.counter == old(css.counter)
      ensures r.Pass? ==> AtStep(m, plan, k + 1) && FirstStop(m, css.failing, plan, needs, options, k) == FirstStop(m, css.failing, plan, needs, options, k + 1)
      ensures r.Fail? ==> && AtStep(m, plan, k) && FirstStop(m, css.failing, plan, needs, options, k) == k
                          && StepError(plan[k], needs[k], options, css.failing, css.entries) == Some(r.error)
    {
      if key !in options {
        r := Fail(KeyError(key));
      } else {
        r := Perform(m, plan, needs, options, k, Created(p, options[key]));
      }
    }

    /** `createDb`: registers a database with its partitioning, attributes and lock section. */
    method CreateDb(dbName: string, options: map<string, string>) returns (r: Outcome<AdminError>)
      requires AncestorClosed(css.entries)
      modifies css
      ensures Effect(css.entries, css.counter, r) == CreateDbSpec(old(css.entries), css.failing, old(css.counter), dbName, options)
      ensures AncestorClosed(css.entries)
    {
      CreateDbKeepsClosed(css.entries, css.failing, css.counter, dbName, options);
      if DbExists(dbName) {
        return Fail(CssException(CssError.DbExists(dbName)));
      }
      var dbP := "/DATABASES/" + dbName;
      ghost var m, n := css.entries, css.counter;
      ghost var plan := DbPlan(dbP, SeqPath(n), options);
      DbPlanNamed(dbP, SeqPath(n), options);
      var ptP: Option<string>;
      ghost var steps: nat;
      r, ptP, steps := CreateDbWrites(dbP, m, plan, DbNeeds, options);
      CreateDbSpecAbsent(m, css.failing, n, dbName, options, steps, r);
      if r.Fail? && r.error.CssException? {
        DbRollbackFinds(m, css.failing, n, dbName, options, r.error);
        var d := css.Delete(dbP);
        r := Raise(r, d);
        if d.Pass? && ptP.Some? {
          d := css.Delete(ptP.value);
          r := Raise(r, d);
        }
      }
    }

    /**
     * The `try` block of `createDb`: writes the database node as PENDING,
     * allocates the partitioning node, writes the partitioning parameters,
     * the attributes and the lock section, and sets the node READY. It stops
     * at the first step that fails, or whose option is missing.
     */
    method CreateDbWrites(dbP: string, ghost m: Store, ghost plan: seq<Mutation>, ghost needs: seq<Option<string>>,
                          options: map<string, string>)
      returns (r: Outcome<AdminError>, ptP: Option<string>, ghost steps: nat)
      requires AtStep(m, plan, 0) && DbPlanShape(plan, dbP, SeqPath(css.counter), options) && DbNeedsShape(needs)
      modifies css
      ensures (r.Pass? <==> steps == 16) && AtStep(m, plan, steps)
      ensures steps == FirstStop(m, css.failing, plan, needs, options, 0)
      ensures r.Fail? ==> StepError(plan[steps], needs[steps], options, css.failing, css.entries) == Some(r.error)
      ensures ptP == (if steps >= 2 then Some(SeqPath(old(css.counter))) else None)
      ensures css.counter == old(css.counter) + (if steps >= 2 then 1 else 0)
    {
      ptP := None;
      r := Perform(m, plan, needs, options, 0, Created(dbP, "PENDING"));
      steps := if r.Pass? then 1 else 0;
      if r.Pass? {
        r, ptP, steps := CreatePartitioning(dbP, m, plan, needs, options);
      }
      if r.Pass? {
        r, steps := CreateDbRest(dbP, ptP.value, m, plan, needs, options);
      }
    }

    /** Steps 5 to 15 of `createDb`: the attributes, the lock section and the final set to READY. */
    method CreateDbRest(dbP: string, ptP: string, ghost m: Store, ghost plan: seq<Mutation>, ghost needs: seq<Option<string>>,
                        options: map<string, string>)
      returns (r: Outcome<AdminError>, ghost steps: nat)
      requires AtStep(m, plan, 5) && DbPlanShape(plan, dbP, ptP, options) && DbNeedsShape(needs)
      modifies css
      ensures css.counter == old(css.counter)
      ensures 5 <= steps <= 16 && (r.Pass? <==> steps == 16) && AtStep(m, plan, steps)
      ensures FirstStop(m, css.failing, plan, needs, options, 5) == steps
      ensures r.Fail? ==> StepError(plan[steps], needs[steps], options, css.failing, css.entries) == Some(r.error)
    {
      r, steps := CreateDbAttributes(dbP, ptP, m, plan, needs, options);
      if r.Pass? {
        r, steps := CreateDbLockSection(dbP, m, plan, needs, options, 9);
      }
      if r.Pass? {
        r := Perform(m, plan, needs, options, 15, SetTo(dbP, "READY"));
        steps := if r.Pass? then 16 else 15;
      }
    }

    /** Steps 1 to 4 of `createDb`: allocates the partitioning node and writes its three parameters. */
    method CreatePartitioning(ghost dbP: string, ghost m: Store, ghost plan: seq<Mutation>, ghost needs: seq<Option<string>>,
                              options: map<string, string>)
      returns (r: Outcome<AdminError>, ptP: Option<string>, ghost steps: nat)
      requires AtStep(m, plan, 1) && DbPlanShape(plan, dbP, SeqPath(css.counter), options) && DbNeedsShape(needs)
      modifies css
      ensures 1 <= steps <= 5 && (r.Pass? <==> steps == 5) && AtStep(m, plan, steps)
      ensures FirstStop(m, css.failing, plan, needs, options, 1)
        == if r.Pass? then FirstStop(m, css.failing, plan, needs, options, 5) else steps
      ensures r.Fail? ==> StepError(plan[steps], needs[steps], options, css.failing, css.entries) == Some(r.error)
      ensures ptP == (if steps >= 2 then Some(SeqPath(old(css.counter))) else None)
      ensures css.counter == old(css.counter) + (if steps >= 2 then 1 else 0)
    {
      ptP, steps := None, 1;
      var pt: string;
      r, pt := AllocatePartitioning(m, plan, needs, options, 1);
      if r.Pass? {
        ptP, steps := Some(pt), 2;
        r := PerformWith(m, plan, needs, options, 2, pt + "/nStripes", "nStripes");
      }
      if r.Pass? {
        steps := 3;
        r := PerformWith(m, plan, needs, options, 3, pt + "/nSubStripes", "nSubStripes");
      }
      if r.Pass? {
        steps := 4;
        r := PerformWith(m, plan, needs, options, 4, pt + "/overlap", "overlap");
      }
      if r.Pass? {
        steps := 5;
      }
    }

    /** Step `k` of `plan`: the sequential create of a partitioning node, whose path it returns. */
    method AllocatePartitioning(ghost m: Store, ghost plan: seq<Mutation>, ghost needs: seq<Option<string>>,
                                ghost options: map<string, string>, ghost k: nat) returns (r: Outcome<AdminError>, pt: string)
      requires AtStep(m, plan, k)
      requires k < |plan| == |needs| && plan[k] == Created(SeqPath(css.counter), "") && needs[k] == None
      modifies css
      ensures r.Pass? ==> && AtStep(m, plan, k + 1) && pt == SeqPath(old(css.counter)) && css.counter == old(css.counter) + 1
                          && FirstStop(m, css.failing, plan, needs, options, k) == FirstStop(m, css.failing, plan, needs, options, k + 1)
      ensures r.Fail? ==> && AtStep(m, plan, k) && css.counter == old(css.counter)
                          && FirstStop(m, css.failing, plan, needs, options, k) == k
                          && StepError(plan[k], needs[k], options, css.failing, css.entries) == Some(r.error)
    {
      TraceStep(m, plan, k);
      var s := css.CreateSequential(PartitioningBase);
      if s.Err? {
        r, pt := Fail(CssException(s.error)), "";
      } else {
        r, pt := Pass, s.value;
      }
    }

    /** Steps 5 to 8 of `createDb`: the database attributes, the partitioning id taken from the node's name. */
    method CreateDbAttributes(dbP: string, ptP: string, ghost m: Store, ghost plan: seq<Mutation>, ghost needs: seq<Option<string>>,
                              options: map<string, string>)
      returns (r: Outcome<AdminError>, ghost steps: nat)
      requires AtStep(m, plan, 5) && |plan| == |needs| == 16
      requires needs[5] == Some("dbGroup") && needs[6] == None && needs[7] == None && needs[8] == Some("objectIdIndex")
      requires && plan[5] == Created(dbP + "/dbGroup", Opt(options, "dbGroup"))
               && plan[6] == Created(dbP + "/partitioningId", Last10(ptP))
               && plan[7] == Created(dbP + "/releaseStatus", "UNRELEASED")
               && plan[8] == Created(dbP + "/objIdIndex", Opt(options, "objectIdIndex"))
      modifies css
      ensures css.counter == old(css.counter)
      ensures 5 <= steps <= 9 && (r.Pass? <==> steps == 9) && AtStep(m, plan, steps)
      ensures FirstStop(m, css.failing, plan, needs, options, 5)
        == if r.Pass? then FirstStop(m, css.failing, plan, needs, options, 9) else steps
      ensures r.Fail? ==> StepError(plan[steps], needs[steps], options, css.failing, css.entries) == Some(r.error)
    {
      steps := 5;
      r := PerformWith(m, plan, needs, options, 5, dbP + "/dbGroup", "dbGroup");
      if r.Pass? {
        steps := 6;
        var pId := Last10(ptP);
        r := Perform(m, plan, needs, options, 6, Created(dbP + "/partitioningId", pId));
      }
      if r.Pass? {
        steps := 7;
        r := Perform(m, plan, needs, options, 7, Created(dbP + "/releaseStatus", "UNRELEASED"));
      }
      if r.Pass? {
        steps := 8;
        r := PerformWith(m, plan, needs, options, 8, dbP + "/objIdIndex", "objectIdIndex");
      }
      if r.Pass? {
        steps := 9;
      }
    }

    /**
     * `_createDbLockSection`: creates the six lock keys in order and stops at
     * the first failure. The six creates are steps `a` to `a + 5` of the
     * caller's plan.
     */
    method CreateDbLockSection(dbP: string, ghost m: Store, ghost plan: seq<Mutation>, ghost needs: seq<Option<string>>,
                               ghost options: map<string, string>, ghost a: nat) returns (r: Outcome<AdminError>, ghost steps: nat)
      requires AtStep(m, plan, a)
      requires a + 6 <= |plan| == |needs| && plan[a..a + 6] == LockOps(dbP)
      requires forall i :: a <= i < a + 6 ==> needs[i] == None
      modifies css
      ensures css.counter == old(css.counter)
      ensures a <= steps <= a + 6 && (r.Pass? <==> steps == a + 6) && AtStep(m, plan, steps)
      ensures FirstStop(m, css.failing, plan, needs, options, a)
        == if r.Pass? then FirstStop(m, css.failing, plan, needs, options, a + 6) else steps
      ensures r.Fail? ==> StepError(plan[steps], needs[steps], options, css.failing, css.entries) == Some(r.error)
    {
      LockOpsNamed(dbP);
      assert plan[a] == LockOps(dbP)[0] && plan[a + 1] == LockOps(dbP)[1] && plan[a + 2] == LockOps(dbP)[2];
      assert plan[a + 3] == LockOps(dbP)[3] && plan[a + 4] == LockOps(dbP)[4] && plan[a + 5] == LockOps(dbP)[5];
      r := Perform(m, plan, needs, options, a, Created(dbP + "/LOCK/comments", ""));
      steps := a;
      if r.Pass? {
        r := Perform(m, plan, needs, options, a + 1, Created(dbP + "/LOCK/estimatedDuration", ""));
        steps := a + 1;
      }
      if r.Pass? {
        r := Perform(m, plan, needs, options, a + 2, Created(dbP + "/LOCK/lockedBy", ""));
        steps := a + 2;
      }
      if r.Pass? {
        r := Perform(m, plan, needs, options, a + 3, Created(dbP + "/LOCK/lockedTime", ""));
        steps := a + 3;
      }
      if r.Pass? {
        r := Perform(m, plan, needs, options, a + 4, Created(dbP + "/LOCK/mode", ""));
        steps := a + 4;
      }
      if r.Pass? {
        r := Perform(m, plan, needs, options, a + 5, Created(dbP + "/LOCK/reason", ""));
        steps := a + 5;
      }
      if r.Pass? {
        steps := a + 6;
      }
    }
  
    /** Step `k` of `plan`: reads `src` and creates `p` with the value read. */
    method PerformCopy(ghost m: Store, ghost plan: seq<Mutation>, ghost needs: seq<Option<string>>,
                       ghost options: map<string, string>, ghost k: nat, p: string, src: string) returns (r: Outcome<AdminError>)
      requires AtStep(m, plan, k)
      requires k < |plan| == |needs| && plan[k] == Copied(p, src) && needs[k] == None
      modifies css
      ensures css.counter == old(css.counter)
      ensures r.Pass? ==> AtStep(m, plan, k + 1) && FirstStop(m, css.failing, plan, needs, options, k) == FirstStop(m, css.failing, plan, needs, options, k + 1)
      ensures r.Fail? ==> && AtStep(m, plan, k) && FirstStop(m, css.failing, plan, needs, options, k) == k
                          && StepError(plan[k], needs[k], options, css.failing, css.entries) == Some(r.error)
    {
      TraceStep(m, plan, k);
      var v := css.Get(src);
      if v.Err? {
        r := Fail(CssException(v.error));
      } else {
        var o := css.Create(p, v.value);
        r := Lift(o);
      }
    }

    /**
     * `_copyKeyValue`: for each name in turn, reads it under the source
     * database and creates it under the destination database; stops at the
     * first failure. The copies are steps `a` onwards of the caller's plan.
     */
    method CopyKeyValue(dbDest: string, dbSrc: string, names: seq<string>, ghost m: Store, ghost plan: seq<Mutation>,
                        ghost needs: seq<Option<string>>, ghost options: map<string, string>, ghost a: nat)
      returns (r: Outcome<AdminError>, ghost steps: nat)
      requires AtStep(m, plan, a)
      requires a + |names| <= |plan| == |needs| && plan[a..a + |names|] == CopyOps(DbPath(dbDest), DbPath(dbSrc), names)
      requires forall i :: a <= i < a + |names| ==> needs[i] == None
      modifies css
      ensures css.counter == old(css.counter)
      ensures a <= steps <= a + |names| && (r.Pass? <==> steps == a + |names|) && AtStep(m, plan, steps)
      ensures FirstStop(m, css.failing, plan, needs, options, a)
        == if r.Pass? then FirstStop(m, css.failing, plan, needs, options, a + |names|) else steps
      ensures r.Fail? ==> StepError(plan[steps], needs[steps], options, css.failing, css.entries) == Some(r.error)
    {
      var dbS := "/DATABASES/" + dbSrc;
      var dbD := "/DATABASES/" + dbDest;
      var i := 0;
      while i < |names|
        invariant 0 <= i <= |names| && AtStep(m, plan, a + i) && css.counter == old(css.counter)
        invariant FirstStop(m, css.failing, plan, needs, options, a) == FirstStop(m, css.failing, plan, needs, options, a + i)
      {
        assert plan[a + i] == plan[a..a + |names|][i];
        r := PerformCopy(m, plan, needs, options, a + i, dbD + "/" + names[i], dbS + "/" + names[i]);
        if r.Fail? {
          steps := a + i;
          return;
        }
        i := i + 1;
      }
      r, steps := Pass, a + |names|;
    }

    /** `createDbLike`: registers a database whose attributes are copied from an existing one. */
    method CreateDbLike(dbName: string, dbName2: string) returns (r: Outcome<AdminError>)
      requires AncestorClosed(css.entries)
      modifies css
      ensures Effect(css.entries, css.counter, r) == CreateDbLikeSpec(old(css.entries), css.failing, old(css.counter), dbName, dbName2)
      ensures AncestorClosed(css.entries)
    {
      CreateDbLikeKeepsClosed(css.entries, css.failing, css.counter, dbName, dbName2);
      if DbExists(dbName) {
        return Fail(CssException(CssError.DbExists(dbName)));
      }
      if !DbExists(dbName2) {
        return Fail(CssException(DbDoesNotExist(dbName2)));
      }
      var dbP := "/DATABASES/" + dbName;
      ghost var m, n := css.entries, css.counter;
      ghost var plan := LikePlan(dbP, DbPath(dbName2));
      LikePlanNamed(dbP, DbPath(dbName2));
      ghost var steps: nat;
      r, steps := CreateDbLikeWrites(dbName, dbName2, m, plan);
      CreateDbLikeSpecAbsent(m, css.failing, n, dbName, dbName2, steps, r);
      if r.Fail? {
        LikeRollbackFinds(m, css.failing, dbName, dbName2, r.error);
        var d := css.Delete(dbP);
        r := Raise(r, d);
      }
    }

    /** The `try` block of `createDbLike`: the PENDING node, the four copies, the lock section and the set to READY. */
    method CreateDbLikeWrites(dbName: string, dbName2: string, ghost m: Store, ghost plan: seq<Mutation>)
      returns (r: Outcome<AdminError>, ghost steps: nat)
      requires AtStep(m, plan, 0) && LikePlanShape(plan, DbPath(dbName), DbPath(dbName2))
      modifies css
      ensures css.counter == old(css.counter)
      ensures (r.Pass? <==> steps == 12) && AtStep(m, plan, steps)
      ensures steps == FirstStop(m, css.failing, plan, NoNeeds(12), map[], 0)
      ensures r.Fail? ==> StepError(plan[steps], NoNeeds(12)[steps], map[], css.failing, css.entries) == Some(r.error)
    {
      var dbP := "/DATABASES/" + dbName;
      ghost var needs := NoNeeds(12);
      r := Perform(m, plan, needs, map[], 0, Created(dbP, "PENDING"));
      steps := 0;
      if r.Pass? {
        r, steps := CopyKeyValue(dbName, dbName2, ["dbGroup", "partitioningId", "releaseStatus", "objIdIndex"],
                                 m, plan, needs, map[], 1);
      }
      if r.Pass? {
        r, steps := CreateDbLockSection(dbP, m, plan, needs, map[], 5);
      }
      if r.Pass? {
        r := Perform(m, plan, needs, map[], 11, SetTo(dbP, "READY"));
        steps := if r.Pass? then 12 else 11;
      }
    }

    /** `dropDb`: refused when the database is not registered, otherwise the recursive delete of its node. */
    method DropDb(dbName: string) returns (r: Outcome<AdminError>)
      requires AncestorClosed(css.entries)
      modifies css
      ensures Effect(css.entries, css.counter, r) == DropDbSpec(old(css.entries), css.failing, old(css.counter), dbName)
      ensures AncestorClosed(css.entries)
    {
      DropDbKeepsClosed(css.entries, css.failing, css.counter, dbName);
      if !DbExists(dbName) {
        return Fail(CssException(DbDoesNotExist(dbName)));
      }
      var d := css.Delete("/DATABASES/" + dbName);
      r := Lift(d);
    }

    /** `createTable`: registers a table with the catalogued options the caller gave. */
    method CreateTable(dbName: string, tableName: string, options: map<string, string>) returns (r: Outcome<AdminError>)
      requires AncestorClosed(css.entries)
      modifies css
      ensures Effect(css.entries, css.counter, r)
        == CreateTableSpec(old(css.entries), css.failing, old(css.counter), dbName, tableName, options)
      ensures AncestorClosed(css.entries)
    {
      CreateTableKeepsClosed(css.entries, css.failing, css.counter, dbName, tableName, options);
      var possibleOptions := TableOptions;
      if !DbExists(dbName) {
        return Fail(CssException(DbDoesNotExist(dbName)));
      }
      if TableExists(dbName, tableName) {
        return Fail(CssException(TbExists(dbName + "." + tableName)));
      }
      var tbP := "/DATABASES/" + dbName + "/TABLES/" + tableName;
      ghost var m, n := css.entries, css.counter;
      ghost var plan := TablePlan(tbP, options);
      ghost var steps: nat;
      r, steps := CreateTableWrites(tbP, options, possibleOptions, m, plan);
      CreateTableSpecAbsent(m, css.failing, n, dbName, tableName, options, steps, r);
      if r.Fail? {
        TableRollbackFinds(m, css.failing, tbP, options, r.error);
        var d := css.Delete(tbP);
        r := Raise(r, d);
      }
    }

    /**
     * The `try` block of `createTable`: the PENDING node, then, for each
     * entry of `possibleOptions` the caller gave, a create of its key, then
     * the set to READY.
     */
    method CreateTableWrites(tbP: string, options: map<string, string>, possibleOptions: seq<TableOption>,
                             ghost m: Store, ghost plan: seq<Mutation>)
      returns (r: Outcome<AdminError>, ghost steps: nat)
      requires AtStep(m, plan, 0)
      requires plan == [Created(tbP, "PENDING")] + OptionOps(tbP, options, possibleOptions) + [SetTo(tbP, "READY")]
      modifies css
      ensures css.counter == old(css.counter)
      ensures (r.Pass? <==> steps == |plan|) && AtStep(m, plan, steps)
      ensures steps == FirstStop(m, css.failing, plan, NoNeeds(|plan|), map[], 0)
      ensures r.Fail? ==> StepError(plan[steps], NoNeeds(|plan|)[steps], map[], css.failing, css.entries) == Some(r.error)
    {
      ghost var needs := NoNeeds(|plan|);
      r := Perform(m, plan, needs, map[], 0, Created(tbP, "PENDING"));
      steps := 0;
      if r.Pass? {
        r, steps := CreateTableOptions(tbP, options, possibleOptions, m, plan);
      }
      if r.Pass? {
        CommitStep(tbP, options, possibleOptions, plan, steps);
        r := Perform(m, plan, needs, map[], steps, SetTo(tbP, "READY"));
        steps := if r.Pass? then steps + 1 else steps;
      }
    }

    /** The loop of `createTable` over `possibleOptions`: one create for each entry the caller gave, up to the first failure. */
    method CreateTableOptions(tbP: string, options: map<string, string>, possibleOptions: seq<TableOption>,
                              ghost m: Store, ghost plan: seq<Mutation>)
      returns (r: Outcome<AdminError>, ghost steps: nat)
      requires AtStep(m, plan, 1)
      requires plan == [Created(tbP, "PENDING")] + OptionOps(tbP, options, possibleOptions) + [SetTo(tbP, "READY")]
      modifies css
      ensures css.counter == old(css.counter)
      ensures 1 <= steps < |plan| && AtStep(m, plan, steps)
      ensures r.Pass? ==> steps == 1 + |OptionOps(tbP, options, possibleOptions[..|possibleOptions|])|
      ensures FirstStop(m, css.failing, plan, NoNeeds(|plan|), map[], 1)
        == if r.Pass? then FirstStop(m, css.failing, plan, NoNeeds(|plan|), map[], steps) else steps
      ensures r.Fail? ==> StepError(plan[steps], NoNeeds(|plan|)[steps], map[], css.failing, css.entries) == Some(r.error)
    {
      ghost var needs := NoNeeds(|plan|);
      r := Pass;
      var i := 0;
      steps := 1;
      while i < |possibleOptions|
        invariant 0 <= i <= |possibleOptions| && steps == 1 + |OptionOps(tbP, options, possibleOptions[..i])|
        invariant r.Pass? && AtStep(m, plan, steps) && css.counter == old(css.counter)
        invariant FirstStop(m, css.failing, plan, needs, map[], 1) == FirstStop(m, css.failing, plan, needs, map[], steps)
      {
        r, steps := CreateTableOption(tbP, options, possibleOptions, i, m, plan, steps);
        if r.Fail? {
          return;
        }
        i := i + 1;
      }
      CommitStep(tbP, options, possibleOptions, plan, steps);
    }
  
    /** One pass of the loop of `createTable`: the create of entry `i` of `possibleOptions` when the caller gave it. */
    method CreateTableOption(tbP: string, options: map<string, string>, possibleOptions: seq<TableOption>, i: nat,
                             ghost m: Store, ghost plan: seq<Mutation>, ghost k: nat)
      returns (r: Outcome<AdminError>, ghost steps: nat)
      requires i < |possibleOptions| && k == 1 + |OptionOps(tbP, options, possibleOptions[..i])| && AtStep(m, plan, k)
      requires plan == [Created(tbP, "PENDING")] + OptionOps(tbP, options, possibleOptions) + [SetTo(tbP, "READY")]
      modifies css
      ensures css.counter == old(css.counter) && AtStep(m, plan, steps)
      ensures r.Pass? ==> && steps == 1 + |OptionOps(tbP, options, possibleOptions[..i + 1])|
                          && FirstStop(m, css.failing, plan, NoNeeds(|plan|), map[], k) == FirstStop(m, css.failing, plan, NoNeeds(|plan|), map[], steps)
      ensures r.Fail? ==> && k == steps < |plan| && FirstStop(m, css.failing, plan, NoNeeds(|plan|), map[], k) == k
                          && StepError(plan[k], NoNeeds(|plan|)[k], map[], css.failing, css.entries) == Some(r.error)
    {
      var o := possibleOptions[i];
      OptionStep(tbP, options, possibleOptions, plan, i, k);
      r, steps := Pass, k;
      if o.name in options {
        var key := tbP + o.section + "/" + o.name;
        assert key == OptionKey(tbP, o);
        r := Perform(m, plan, NoNeeds(|plan|), map[], k, Created(key, options[o.name]));
        if r.Pass? {
          steps := k + 1;
        }
      }
    }
  }
}
