/**
 * What the administrative client's operations share: the catalogue paths,
 * the lock section, the errors that escape, and running a plan of writes
 * up to its first failing step.
 *
 * Each operation's writes are given as a plan, a list of mutations; the
 * client's methods are proved to perform a prefix of their plan (and then
 * the rollback), and the lemmas state what a completed, partial or
 * rolled-back plan leaves in the store.
 */
module AdminPlan {
  import opened Results
  import opened Decimal
  import opened KvStore
  // ----- paths -----

  function DbPath(dbName: string): string
  {
    "/DATABASES/" + dbName
  }

  function TablePath(dbName: string, tableName: string): string
  {
    "/DATABASES/" + dbName + "/TABLES/" + tableName
  }

  /** The base of the sequential nodes that hold database partitionings. */
  const PartitioningBase: string := "/DATABASE_PARTITIONING/_"

  /** The partitioning node a sequential create makes when the backend counter is `n`. */
  function SeqPath(n: nat): string
  {
    PartitioningBase + Pad10(n)
  }

  /** Python's `s[-10:]`: the last ten characters, or all of a shorter string. */
  function Last10(s: string): string
  {
    if |s| <= 10 then s else s[|s| - 10..]
  }

  /** Keys under the database catalogue, or the catalogue node itself. */
  predicate UnderDatabases(k: string)
  {
    |k| >= 10 && k[..10] == "/DATABASES"
  }

  /** Keys under the partitioning catalogue, or the catalogue node itself. */
  predicate UnderPartitioning(k: string)
  {
    |k| >= 22 && k[..22] == "/DATABASE_PARTITIONING"
  }

  lemma CataloguesApart(k: string)
    ensures !(UnderDatabases(k) && UnderPartitioning(k))
  {
    assert UnderDatabases(k) ==> k[9] == "/DATABASES"[9] == 'S';
    assert UnderPartitioning(k) ==> k[9] == "/DATABASE_PARTITIONING"[9] == '_';
  }

  lemma DatabaseKeys(dbName: string)
    ensures forall k :: InSubtree(k, DbPath(dbName)) || k in Ancestors(DbPath(dbName)) ==> UnderDatabases(k)
  {
    var dbP := DbPath(dbName);
    assert dbP[..11] == "/DATABASES/";
    forall k | InSubtree(k, dbP) || k in Ancestors(dbP) ensures UnderDatabases(k) {
      if k in Ancestors(dbP) {
        var i :| 0 < i < |dbP| && dbP[i] == '/' && k == dbP[..i];
        assert i >= 10 by {
          assert forall j :: 0 < j < 10 ==> dbP[j] == "/DATABASES/"[j] != '/';
        }
        assert k[..10] == dbP[..10];
      } else {
        assert k[..|dbP|] == dbP;
        assert k[..10] == dbP[..10];
      }
    }
  }

  lemma PartitioningKeys(n: nat)
    ensures forall k :: InSubtree(k, SeqPath(n)) || k in Ancestors(SeqPath(n)) ==> UnderPartitioning(k)
  {
    var ptP := SeqPath(n);
    SeqPathSlashes(n);
    forall k | InSubtree(k, ptP) || k in Ancestors(ptP) ensures UnderPartitioning(k) {
      if k in Ancestors(ptP) {
        var i :| 0 < i < |ptP| && ptP[i] == '/' && k == ptP[..i];
        assert i == 22;
      } else {
        assert k[..|ptP|] == ptP;
        assert k[..22] == ptP[..22];
      }
    }
  }

  /** A partitioning node's path has its only inner '/' right after the catalogue name. */
  lemma SeqPathSlashes(n: nat)
    ensures |SeqPath(n)| > 24 && SeqPath(n)[..22] == "/DATABASE_PARTITIONING"
    ensures forall j :: 0 < j < |SeqPath(n)| && j != 22 ==> SeqPath(n)[j] != '/'
  {
    var ptP, digits := SeqPath(n), Pad10(n);
    assert ptP[..24] == PartitioningBase;
    forall j | 0 < j < |ptP| && j != 22 ensures ptP[j] != '/' {
      if j < 24 {
        assert ptP[j] == PartitioningBase[j];
      } else {
        assert ptP[j] == digits[j - 24];
      }
    }
  }

  /** A database's keys and a partitioning node's keys never meet. */
  lemma DbPartitionApart(dbName: string, n: nat)
    ensures forall k :: InSubtree(k, DbPath(dbName)) || k in Ancestors(DbPath(dbName)) ==>
      !InSubtree(k, SeqPath(n)) && k !in Ancestors(SeqPath(n))
  {
    DatabaseKeys(dbName);
    PartitioningKeys(n);
    forall k | InSubtree(k, DbPath(dbName)) || k in Ancestors(DbPath(dbName))
      ensures !InSubtree(k, SeqPath(n)) && k !in Ancestors(SeqPath(n))
    {
      CataloguesApart(k);
    }
  }

  /** The partitioning id stored for a database is the ten-digit sequence number of its partitioning node. */
  lemma PartitioningIdIsSequenceNumber(n: nat)
    requires n < 10_000_000_000
    ensures Last10(SeqPath(n)) == Pad10(n) && DigitsValue(Pad10(n)) == n
  {
    Pad10Length(n);
    Pad10Value(n);
    assert SeqPath(n)[|SeqPath(n)| - 10..] == Pad10(n);
  }

  /** Two allocations with different counter values give different nodes and different ids. */
  lemma PartitioningIdsDistinct(m: nat, n: nat)
    requires m != n && m < 10_000_000_000 && n < 10_000_000_000
    ensures SeqPath(m) != SeqPath(n) && Last10(SeqPath(m)) != Last10(SeqPath(n))
  {
    PartitioningIdIsSequenceNumber(m);
    PartitioningIdIsSequenceNumber(n);
  }

  // ----- errors and plans -----

  /** What escapes from an administrative call: a store error, or Python's `KeyError` for a missing option. */
  datatype AdminError = CssException(e: CssError) | KeyError(key: string)

  const PtFields: seq<string> := ["nStripes", "nSubStripes", "overlap"]
  /** The database attributes; `createDbLike` copies exactly these from its template. */
  const DbFields: seq<string> := ["dbGroup", "partitioningId", "releaseStatus", "objIdIndex"]
  const LockFields: seq<string> := ["comments", "estimatedDuration", "lockedBy", "lockedTime", "mode", "reason"]

  /** The option's value; only read by plan steps that are never reached without it. */
  function Opt(options: map<string, string>, key: string): string
  {
    if key in options then options[key] else ""
  }

  /** `_createDbLockSection`: six empty lock keys under `dbP/LOCK`. */
  function LockOps(dbP: string): (ops: seq<Mutation>)
    ensures |ops| == 6
  {
    ChildOps(dbP + "/LOCK", LockFields, ["", "", "", "", "", ""])
  }


  predicate AllUnder(ops: seq<Mutation>, p: string, q: string)
  {
    forall i :: 0 <= i < |ops| ==> InSubtree(ops[i].path, p) || InSubtree(ops[i].path, q)
  }

  lemma ChildOpsUnder(p: string, names: seq<string>, values: seq<string>, q: string)
    requires |values| == |names|
    ensures AllUnder(ChildOps(p, names, values), p, q)
  {
    var ops := ChildOps(p, names, values);
    forall i | 0 <= i < |ops| ensures InSubtree(ops[i].path, p) {
      assert ops[i].path[..|p|] == p;
    }
  }

  lemma AllUnderAppend(a: seq<Mutation>, b: seq<Mutation>, p: string, q: string)
    requires AllUnder(a, p, q) && AllUnder(b, p, q)
    ensures AllUnder(a + b, p, q)
  {
    forall i | 0 <= i < |a + b| ensures InSubtree((a + b)[i].path, p) || InSubtree((a + b)[i].path, q) {
      if i >= |a| {
        assert (a + b)[i] == b[i - |a|];
      }
    }
  }

  predicate Avoids(ops: seq<Mutation>, key: string)
  {
    forall i :: 0 <= i < |ops| ==> ops[i].path != key
  }

  lemma AvoidsAppend(a: seq<Mutation>, b: seq<Mutation>, key: string)
    requires Avoids(a, key) && Avoids(b, key)
    ensures Avoids(a + b, key)
  {
  }

  lemma UnderAvoids(ops: seq<Mutation>, p: string, key: string)
    requires AllUnder(ops, p, p) && !InSubtree(key, p)
    ensures Avoids(ops, key)
  {
  }

  lemma ChildOpsAvoid(p: string, names: seq<string>, values: seq<string>, key: string)
    requires |values| == |names| && |key| <= |p|
    ensures Avoids(ChildOps(p, names, values), key)
  {
  }


  lemma DbFieldsWellFormed()
    ensures SlashFree(DbFields) && Distinct(DbFields)
  {
  }

  lemma LockFieldsWellFormed()
    ensures SlashFree(LockFields) && Distinct(LockFields)
  {
  }


  /** A lock key lies below the database node and is none of its attributes. */
  lemma LockKeyApart(dbP: string, g: string)
    ensures InSubtree(dbP + "/LOCK" + "/" + g, dbP)
    ensures forall f :: f in DbFields ==> dbP + "/LOCK" + "/" + g != dbP + "/" + f
  {
    var k := dbP + "/LOCK" + "/" + g;
    assert k[..|dbP|] == dbP && k[|dbP|] == '/' && k[|dbP| + 1] == 'L';
    forall f | f in DbFields ensures k != dbP + "/" + f {
      assert f[0] != 'L';
      assert (dbP + "/" + f)[|dbP| + 1] == f[0];
    }
  }

  lemma LockPath(dbP: string, name: string)
    ensures dbP + "/LOCK" + "/" + name == dbP + "/LOCK/" + name
  {
  }

  // ----- running a plan -----

  /** The error that stops a plan at `op`: a missing option the step looks up first, else the backend's error. */
  function StepError(op: Mutation, need: Option<string>, options: map<string, string>, failing: Faults, m: Store): Option<AdminError>
  {
    if need.Some? && need.value !in options then Some(KeyError(need.value))
    else if OpFailure(op, failing, m).Some? then Some(CssException(OpFailure(op, failing, m).value))
    else None
  }

  /** A plan whose steps look up no option. */
  function NoNeeds(n: nat): (needs: seq<Option<string>>)
    ensures |needs| == n && forall i :: 0 <= i < n ==> needs[i] == None
  {
    seq(n, _ => None)
  }

  /** Where `plan`, run from `m` and already past step `k`, stops: its first failing step from `k` on, or its length. */
  ghost function FirstStop(m: Store, failing: Faults, plan: seq<Mutation>, needs: seq<Option<string>>,
                           options: map<string, string>, k: nat): (s: nat)
    requires |needs| == |plan| && k <= |plan|
    ensures k <= s <= |plan|
    decreases |plan| - k
  {
    if k == |plan| then k
    else if StepError(plan[k], needs[k], options, failing, Trace(m, plan)[k]).Some? then k
    else FirstStop(m, failing, plan, needs, options, k + 1)
  }

  /** Run from `m`, `plan` stops after `steps` steps: those succeed and, unless they are the whole plan, the next one fails. */
  ghost predicate StopsAt(m: Store, failing: Faults, plan: seq<Mutation>, needs: seq<Option<string>>,
                          options: map<string, string>, steps: nat)
  {
    && |needs| == |plan| && steps <= |plan|
    && (forall j :: 0 <= j < steps ==> StepError(plan[j], needs[j], options, failing, Trace(m, plan)[j]).None?)
    && (steps < |plan| ==> StepError(plan[steps], needs[steps], options, failing, Trace(m, plan)[steps]).Some?)
  }

  /** The first stop is the one step where the plan stops: every step before it succeeds, and it fails. */
  lemma {:induction false} FirstStopStops(m: Store, failing: Faults, plan: seq<Mutation>, needs: seq<Option<string>>,
                                          options: map<string, string>, k: nat)
    requires |needs| == |plan| && k <= |plan|
    requires forall j :: 0 <= j < k ==> StepError(plan[j], needs[j], options, failing, Trace(m, plan)[j]).None?
    ensures StopsAt(m, failing, plan, needs, options, FirstStop(m, failing, plan, needs, options, k))
    decreases |plan| - k
  {
    if k < |plan| && StepError(plan[k], needs[k], options, failing, Trace(m, plan)[k]).None? {
      FirstStopStops(m, failing, plan, needs, options, k + 1);
    }
  }

  /** The steps of a plan that succeed keep the store a tree. */
  lemma {:induction false} PrefixKeepsClosed(m: Store, failing: Faults, plan: seq<Mutation>, needs: seq<Option<string>>,
                                             options: map<string, string>, s: nat)
    requires AncestorClosed(m) && |needs| == |plan| && s <= |plan|
    requires forall j :: 0 <= j < s ==> StepError(plan[j], needs[j], options, failing, Trace(m, plan)[j]).None?
    ensures AncestorClosed(Trace(m, plan)[s])
  {
    var t := Trace(m, plan);
    forall j | 0 <= j < s ensures t[j + 1] == Apply(t[j], plan[j]) {
      TraceStep(m, plan, j);
    }
    ClosedAlong(t, plan, needs, options, failing, s);
  }

  /** Along a sequence of stores each made from the previous one by a step that succeeds, the store stays a tree. */
  lemma {:induction false} ClosedAlong(t: seq<Store>, plan: seq<Mutation>, needs: seq<Option<string>>,
                                       options: map<string, string>, failing: Faults, s: nat)
    requires |t| == |plan| + 1 && |needs| == |plan| && s <= |plan| && AncestorClosed(t[0])
    requires forall j :: 0 <= j < s ==> t[j + 1] == Apply(t[j], plan[j]) && StepError(plan[j], needs[j], options, failing, t[j]).None?
    ensures AncestorClosed(t[s])
    decreases s
  {
    if s > 0 {
      ClosedAlong(t, plan, needs, options, failing, s - 1);
      StepKeepsClosed(t[s - 1], plan[s - 1], needs[s - 1], options, failing);
    }
  }

  /** A step that succeeds keeps the store a tree. */
  lemma StepKeepsClosed(m: Store, op: Mutation, need: Option<string>, options: map<string, string>, failing: Faults)
    requires AncestorClosed(m) && StepError(op, need, options, failing, m).None?
    ensures AncestorClosed(Apply(m, op))
  {
    assert OpFailure(op, failing, m).None?;
    ApplyKeepsClosed(m, op);
  }

  /** A plan stops at one step only, so how far it gets is fixed by the store, the failing paths and the options. */
  lemma StopsAtUnique(m: Store, failing: Faults, plan: seq<Mutation>, needs: seq<Option<string>>,
                      options: map<string, string>, s1: nat, s2: nat)
    requires StopsAt(m, failing, plan, needs, options, s1) && StopsAt(m, failing, plan, needs, options, s2)
    ensures s1 == s2
  {
  }

  // ----- the client -----

  /** Plan-step bookkeeping: the prefix of length `k + 1` is the prefix of length `k` and step `k`. */
  lemma PlanAdvance(m: Store, plan: seq<Mutation>, k: nat)
    requires k < |plan|
    ensures plan[..k + 1] == plan[..k] + [plan[k]]
    ensures ApplyAll(m, plan[..k + 1]) == Apply(ApplyAll(m, plan[..k]), plan[k])
  {
    assert plan[..k + 1] == plan[..k] + [plan[k]];
    ApplyAllSnoc(m, plan[..k], plan[k]);
  }

  /** The six lock keys, written the way `_createDbLockSection` names them. */
  lemma LockOpsNamed(dbP: string)
    ensures LockOps(dbP)[0] == Created(dbP + "/LOCK/comments", "")
    ensures LockOps(dbP)[1] == Created(dbP + "/LOCK/estimatedDuration", "")
    ensures LockOps(dbP)[2] == Created(dbP + "/LOCK/lockedBy", "")
    ensures LockOps(dbP)[3] == Created(dbP + "/LOCK/lockedTime", "")
    ensures LockOps(dbP)[4] == Created(dbP + "/LOCK/mode", "")
    ensures LockOps(dbP)[5] == Created(dbP + "/LOCK/reason", "")
  {
    var ops := LockOps(dbP);
    LockChild(dbP, LockFields[0], "/LOCK/comments");
    LockChild(dbP, LockFields[1], "/LOCK/estimatedDuration");
    LockChild(dbP, LockFields[2], "/LOCK/lockedBy");
    LockChild(dbP, LockFields[3], "/LOCK/lockedTime");
    LockChild(dbP, LockFields[4], "/LOCK/mode");
    LockChild(dbP, LockFields[5], "/LOCK/reason");
  }

  lemma LockChild(dbP: string, name: string, suffix: string)
    requires suffix == "/LOCK/" + name
    ensures dbP + "/LOCK" + "/" + name == dbP + suffix
  {
  }

  /** A store error as it escapes from the admin client. */
  function Lift(o: Outcome<CssError>): Outcome<AdminError>
  {
    if o.Pass? then Pass else Fail(CssException(o.error))
  }

  /** What an administrative call leaves behind: the store, the backend's sequence counter, and its outcome. */
  datatype Effect = Effect(store: Store, counter: nat, outcome: Outcome<AdminError>)

  /** An error raised while cleaning up replaces the one being handled, as a Python `raise` inside `except` does. */
  function Raise(handled: Outcome<AdminError>, cleanup: Outcome<CssError>): Outcome<AdminError>
  {
    if cleanup.Fail? then Fail(CssException(cleanup.error)) else handled
  }

  /**
   * The cleanup of an `except` block that re-raises `handled`: the recursive
   * deletes run in order until one fails, whose error then escapes in its
   * place, and the deletes after it are not attempted. The result is the
   * store left behind and the error that escapes.
   */
  function Cleanup(m: Store, failing: Faults, deletes: seq<Mutation>, handled: AdminError): (Store, AdminError)
    decreases |deletes|
  {
    if deletes == [] then (m, handled)
    else if OpFailure(deletes[0], failing, m).Some? then (m, CssException(OpFailure(deletes[0], failing, m).value))
    else Cleanup(Apply(m, deletes[0]), failing, deletes[1..], handled)
  }

  /** The cleanup's first delete, then the rest. */
  lemma CleanupFirst(m: Store, failing: Faults, d: Mutation, rest: seq<Mutation>, handled: AdminError)
    ensures Cleanup(m, failing, [d] + rest, handled)
      == if OpFailure(d, failing, m).Some? then (m, CssException(OpFailure(d, failing, m).value))
         else Cleanup(Apply(m, d), failing, rest, handled)
  {
    assert ([d] + rest)[1..] == rest;
  }

  /**
   * An error raised by a store call or an option lookup: a missing or existing
   * key, or a backend failure, never one of the guard errors the admin layer
   * raises itself before it writes.
   */
  predicate StoreError(e: AdminError)
  {
    e.KeyError? || e.e.KeyExists? || e.e.KeyDoesNotExist? || e.e.BackendFailure?
  }

  /** Every step of a plan fails, if at all, with a store error. */
  lemma StepErrorIsStoreError(op: Mutation, need: Option<string>, options: map<string, string>, failing: Faults, m: Store)
    ensures StepError(op, need, options, failing, m).Some? ==> StoreError(StepError(op, need, options, failing, m).value)
  {
  }

  /** A step that succeeds found the option it looks up. */
  lemma NeedMet(op: Mutation, need: Option<string>, options: map<string, string>, failing: Faults, m: Store)
    requires StepError(op, need, options, failing, m).None? && need.Some?
    ensures need.value in options
  {
  }

  /** A cleanup that re-raises a store error raises a store error, whichever delete fails. */
  lemma {:induction false} CleanupIsStoreError(m: Store, failing: Faults, deletes: seq<Mutation>, handled: AdminError)
    requires StoreError(handled)
    ensures StoreError(Cleanup(m, failing, deletes, handled).1)
    decreases |deletes|
  {
    if deletes != [] && OpFailure(deletes[0], failing, m).None? {
      CleanupIsStoreError(Apply(m, deletes[0]), failing, deletes[1..], handled);
    }
  }

  // ----- a plan that writes below one node -----

  /**
   * A node that a plan creates PENDING in its first step and touches again
   * only in its last still reads "PENDING" after every step in between.
   */
  lemma PendingUntilCommit(m: Store, plan: seq<Mutation>, p: string, k: nat)
    requires 1 <= k < |plan| && NoDeletes(plan) && plan[0] == Created(p, "PENDING")
    requires Avoids(plan[1..|plan| - 1], p)
    ensures p in ApplyAll(m, plan[..k]) && ApplyAll(m, plan[..k])[p] == "PENDING"
  {
    assert plan[..k] == [plan[0]] + plan[1..k];
    assert plan[1..k] == plan[1..|plan| - 1][..k - 1];
    ApplyAllAppend(m, [plan[0]], plan[1..k]);
    assert ApplyAll(m, [plan[0]]) == Apply(m, plan[0]);
    CreatedEffect(m, p, "PENDING");
    assert NoDeletes(plan[1..k]);
    WritesElsewhereKeep(Apply(m, plan[0]), plan[1..k], p);
  }

  /**
   * The cleanup of a plan that writes only below `p`, whose first step
   * created `p`: the recursive delete of `p` finds it, and leaves every key
   * that was there before with its old value and no new key but the
   * parents of `p` created on the way.
   */
  lemma RollbackRestores(m: Store, plan: seq<Mutation>, p: string, k: nat)
    requires AncestorClosed(m) && p != "" && p !in m
    requires 1 <= k <= |plan| && NoDeletes(plan) && AllUnder(plan, p, p) && plan[0].Created? && plan[0].path == p
    ensures var mk := ApplyAll(m, plan[..k]);
      var after := Apply(mk, Deleted(p));
      && p in mk
      && (forall key :: key in m ==> key in after && after[key] == m[key])
      && (forall key :: key in after ==> key in m || key in Ancestors(p))
  {
    var mk := ApplyAll(m, plan[..k]);
    CreatedStays(m, plan, 0, k);
    AbsentRootEmptySubtree(m, p);
    assert AllUnder(plan[..k], p, p) && NoDeletes(plan[..k]);
    WritesUnder(m, plan[..k], p, p);
    DeletedEffect(mk, p);
  }

  /** A copy step that succeeded found its source in the store it ran on. */
  lemma CopySucceeded(m: Store, failing: Faults, plan: seq<Mutation>, needs: seq<Option<string>>,
                      options: map<string, string>, j: nat)
    requires j < |plan| == |needs| && plan[j].Copied?
    requires StepError(plan[j], needs[j], options, failing, Trace(m, plan)[j]).None?
    ensures plan[j].source in ApplyAll(m, plan[..j])
  {
    TraceApplyAll(m, plan, j);
  }

  /** After any prefix of a plan that writes only below `p`, each key was there before, or lies below or above `p`. */
  lemma PlanPrefixKeys(m: Store, plan: seq<Mutation>, p: string, j: nat)
    requires j <= |plan| && AllUnder(plan, p, p) && NoDeletes(plan)
    ensures forall k :: k in ApplyAll(m, plan[..j]) ==> k in m || InSubtree(k, p) || k in Ancestors(p)
  {
    assert AllUnder(plan[..j], p, p) && NoDeletes(plan[..j]);
    WritesUnder(m, plan[..j], p, p);
  }
}
