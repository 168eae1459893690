/**
 * What the read side of the metadata store answers after the admin client
 * has written to it: a facade with an empty prefix over the store that
 * `createDb`, `createTable` or `dropDb` left behind.
 */
module CatalogueReadback {
  import opened Results
  import opened Decimal
  import opened KvStore
  import opened AdminPlan
  import opened CreateDbPlan
  import opened CreateDbLikePlan
  import opened CreateTablePlan
  import opened DropDbPlan
  import opened CssFacade

  /** The facade the admin client's store is read through. */
  function Unprefixed(m: Store): Facade
  {
    Facade("", m)
  }

  /** The facade's keys for a database and a table are the ones the admin client writes. */
  lemma KeysAgree(m: Store, dbName: string, tableName: string)
    ensures DbKey(Unprefixed(m), dbName) == DbPath(dbName)
    ensures TableKey(Unprefixed(m), dbName, tableName) == TablePath(dbName, tableName)
  {
    assert "" + "/DATABASES/" + dbName == "/DATABASES/" + dbName;
    assert "" + "/DATABASES/" + dbName + "/TABLES/" + tableName == "/DATABASES/" + dbName + "/TABLES/" + tableName;
  }

  /** A successful `createDb` leaves the store its whole plan writes. */
  lemma CreateDbPassStore(m: Store, failing: Faults, n: nat, dbName: string, options: map<string, string>)
    requires CreateDbSpec(m, failing, n, dbName, options).outcome.Pass?
    ensures CreateDbSpec(m, failing, n, dbName, options).store == ApplyAll(m, DbPlan(DbPath(dbName), SeqPath(n), options))
  {
    DbSpecCases(m, failing, n, dbName, options);
    assert DbPlan(DbPath(dbName), SeqPath(n), options)[..16] == DbPlan(DbPath(dbName), SeqPath(n), options);
  }

  /** The striping a facade reads from a store holding the partitioning id `Pad10(n)` and its node's counts. */
  lemma StripingRead(after: Store, dbName: string, n: nat, s: string, ss: string)
    requires n < 10_000_000_000
    requires DbPath(dbName) in after
    requires DbPath(dbName) + "/partitioningId" in after && after[DbPath(dbName) + "/partitioningId"] == Last10(SeqPath(n))
    requires SeqPath(n) + "/nStripes" in after && after[SeqPath(n) + "/nStripes"] == s
    requires SeqPath(n) + "/nSubStripes" in after && after[SeqPath(n) + "/nSubStripes"] == ss
    ensures var r := GetDbStriping(Unprefixed(after), dbName);
      && ContainsDb(Unprefixed(after), dbName)
      && (LexicalCastInt(s).None? ==> r == Err(BadLexicalCast(s)))
      && (LexicalCastInt(s).Some? && LexicalCastInt(ss).None? ==> r == Err(BadLexicalCast(ss)))
      && (LexicalCastInt(s).Some? && LexicalCastInt(ss).Some? ==>
            r == Ok(StripingParams(LexicalCastInt(s).value, LexicalCastInt(ss).value)))
  {
    PartitioningIdIsSequenceNumber(n);
    KeysAgree(after, dbName, "");
    StripingDirUnprefixed(after, Pad10(n));
  }

  /** Without a prefix, the facade's striping counts sit under the partitioning node the admin client allocates. */
  lemma StripingDirUnprefixed(m: Store, pid: string)
    ensures StripingDir(Unprefixed(m), pid) + "nStripes" == PartitioningBase + pid + "/nStripes"
    ensures StripingDir(Unprefixed(m), pid) + "nSubStripes" == PartitioningBase + pid + "/nSubStripes"
  {
    assert "" + "/DATABASE_PARTITIONING/_" == PartitioningBase;
  }

  /**
   * After a successful `createDb` the database is there, and its striping
   * reads back as the `nStripes` and `nSubStripes` options it was given
   * (a successful call had both options), each passed through the integer
   * cast, which refuses a text that is not an `int`.
   */
  lemma StripingAfterCreateDb(m: Store, failing: Faults, n: nat, dbName: string, options: map<string, string>)
    requires n < 10_000_000_000
    requires CreateDbSpec(m, failing, n, dbName, options).outcome.Pass?
    ensures var f := Unprefixed(CreateDbSpec(m, failing, n, dbName, options).store);
      var r := GetDbStriping(f, dbName);
      var s, ss := Opt(options, "nStripes"), Opt(options, "nSubStripes");
      && "nStripes" in options && "nSubStripes" in options
      && ContainsDb(f, dbName)
      && (LexicalCastInt(s).None? ==> r == Err(BadLexicalCast(s)))
      && (LexicalCastInt(s).Some? && LexicalCastInt(ss).None? ==> r == Err(BadLexicalCast(ss)))
      && (LexicalCastInt(s).Some? && LexicalCastInt(ss).Some? ==>
            r == Ok(StripingParams(LexicalCastInt(s).value, LexicalCastInt(ss).value)))
  {
    CreateDbPassStore(m, failing, n, dbName, options);
    CreateDbPassHadOptions(m, failing, n, dbName, options);
    DbCommitValues(m, dbName, n, options);
    StripingRead(CreateDbSpec(m, failing, n, dbName, options).store, dbName, n,
                 Opt(options, "nStripes"), Opt(options, "nSubStripes"));
  }

  /**
   * Writes confined to the database catalogue do not change what a striping
   * read finds, so two databases holding the same partitioning id read the
   * same striping.
   */
  lemma StripingOutsideDatabases(m: Store, after: Store, dbName: string, dbName2: string)
    requires forall k :: k in m ==> k in after && after[k] == m[k]
    requires forall k :: k in after ==> k in m || UnderDatabases(k)
    requires DbPath(dbName) in after && DbPath(dbName2) in m
    requires DbPath(dbName) + "/partitioningId" in after && DbPath(dbName2) + "/partitioningId" in m
    requires after[DbPath(dbName) + "/partitioningId"] == m[DbPath(dbName2) + "/partitioningId"]
    ensures GetDbStriping(Unprefixed(after), dbName) == GetDbStriping(Unprefixed(m), dbName2)
  {
    var fa, fm := Unprefixed(after), Unprefixed(m);
    KeysAgree(after, dbName, "");
    KeysAgree(m, dbName2, "");
    var v := m[DbPath(dbName2) + "/partitioningId"];
    assert StripingDir(fa, v) == StripingDir(fm, v);
    forall k | k == StripingDir(fm, v) + "nStripes" || k == StripingDir(fm, v) + "nSubStripes"
      ensures !UnderDatabases(k)
    {
      assert k[9] == '_';
    }
  }

  /** A successful `createDbLike` leaves the store its whole plan writes. */
  lemma LikePassStore(m: Store, failing: Faults, n: nat, dbName: string, dbName2: string)
    requires CreateDbLikeSpec(m, failing, n, dbName, dbName2).outcome.Pass?
    ensures CreateDbLikeSpec(m, failing, n, dbName, dbName2).store == ApplyAll(m, LikePlan(DbPath(dbName), DbPath(dbName2)))
    ensures DbPath(dbName) !in m && DbPath(dbName2) in m
  {
    LikeSpecCases(m, failing, n, dbName, dbName2);
    assert LikePlan(DbPath(dbName), DbPath(dbName2))[..12] == LikePlan(DbPath(dbName), DbPath(dbName2));
  }

  /** A successful `createDbLike` of a name without '/' holds each template attribute's value under the new node. */
  lemma LikePassCopies(m: Store, failing: Faults, n: nat, dbName: string, dbName2: string)
    requires AncestorClosed(m) && '/' !in dbName
    requires CreateDbLikeSpec(m, failing, n, dbName, dbName2).outcome.Pass?
    ensures var dbP, dbS := DbPath(dbName), DbPath(dbName2);
      var after := ApplyAll(m, LikePlan(dbP, dbS));
      && CreateDbLikeSpec(m, failing, n, dbName, dbName2).store == after
      && dbP !in m && dbS in m && dbP in after && after[dbP] == "READY"
      && forall f :: f in DbFields ==> dbS + "/" + f in m && dbP + "/" + f in after && after[dbP + "/" + f] == m[dbS + "/" + f]
  {
    LikeSpecCases(m, failing, n, dbName, dbName2);
    LikePassStore(m, failing, n, dbName, dbName2);
    LikeCompleteReadsTemplate(m, failing, dbName, dbName2);
  }

  /** The keys a `createDbLike` plan adds lie in the database catalogue. */
  lemma LikeKeysInDatabases(m: Store, dbName: string, dbName2: string)
    requires AncestorClosed(m) && DbPath(dbName) !in m
    requires forall f :: f in DbFields ==> DbPath(dbName2) + "/" + f in m
    ensures var after := ApplyAll(m, LikePlan(DbPath(dbName), DbPath(dbName2)));
      && (forall k :: k in m ==> k in after && after[k] == m[k])
      && (forall k :: k in after ==> k in m || UnderDatabases(k))
  {
    LikeCommitValues(m, dbName, dbName2);
    AddedKeysInDatabases(m, ApplyAll(m, LikePlan(DbPath(dbName), DbPath(dbName2))), dbName);
  }

  /** A store whose new keys are a database node, its ancestors, its fields and its LOCK section grew only in the catalogue. */
  lemma AddedKeysInDatabases(m: Store, after: Store, dbName: string)
    requires var dbP := DbPath(dbName);
      after.Keys == m.Keys + Ancestors(dbP) + {dbP, dbP + "/LOCK"} + ChildPaths(dbP, DbFields) + ChildPaths(dbP + "/LOCK", LockFields)
    ensures forall k :: k in after ==> k in m || UnderDatabases(k)
  {
    var dbP := DbPath(dbName);
    DatabaseKeys(dbName);
    forall k | k in after && k !in m && k !in Ancestors(dbP)
      ensures InSubtree(k, dbP)
    {
      if k != dbP {
        assert k[..|dbP|] == dbP && k[|dbP|] == '/';
      }
    }
  }

  /**
   * A database made by `createDbLike` shares its template's partitioning
   * id, so it reads back the template's striping, failures included.
   */
  lemma StripingSharedByLike(m: Store, failing: Faults, n: nat, dbName: string, dbName2: string)
    requires AncestorClosed(m) && '/' !in dbName
    requires CreateDbLikeSpec(m, failing, n, dbName, dbName2).outcome.Pass?
    ensures GetDbStriping(Unprefixed(CreateDbLikeSpec(m, failing, n, dbName, dbName2).store), dbName)
            == GetDbStriping(Unprefixed(m), dbName2)
  {
    LikePassCopies(m, failing, n, dbName, dbName2);
    LikeKeysInDatabases(m, dbName, dbName2);
    FieldsStriping(m, CreateDbLikeSpec(m, failing, n, dbName, dbName2).store, dbName, dbName2);
  }

  /** A store grown only in the catalogue, whose new database copied every field of an existing one, reads back that one's striping. */
  lemma FieldsStriping(m: Store, after: Store, dbName: string, dbName2: string)
    requires forall k :: k in m ==> k in after && after[k] == m[k]
    requires forall k :: k in after ==> k in m || UnderDatabases(k)
    requires DbPath(dbName) in after && DbPath(dbName2) in m
    requires forall f :: f in DbFields ==> DbPath(dbName2) + "/" + f in m && DbPath(dbName) + "/" + f in after
                                           && after[DbPath(dbName) + "/" + f] == m[DbPath(dbName2) + "/" + f]
    ensures GetDbStriping(Unprefixed(after), dbName) == GetDbStriping(Unprefixed(m), dbName2)
  {
    assert "partitioningId" in DbFields;
    assert DbPath(dbName) + "/" + "partitioningId" == DbPath(dbName) + "/partitioningId";
    assert DbPath(dbName2) + "/" + "partitioningId" == DbPath(dbName2) + "/partitioningId";
    StripingOutsideDatabases(m, after, dbName, dbName2);
  }

  /**
   * `dropDb` succeeds exactly when the facade sees the database and the
   * backend lets the delete through; the facade no longer sees it after a
   * success, and sees the same as before after a failure.
   */
  lemma DropDbHidesDatabase(m: Store, failing: Faults, n: nat, dbName: string)
    ensures var e := DropDbSpec(m, failing, n, dbName);
      && (e.outcome.Pass? <==> ContainsDb(Unprefixed(m), dbName) && DbPath(dbName) !in failing.deletes)
      && (e.outcome.Pass? ==> !ContainsDb(Unprefixed(e.store), dbName))
      && (e.outcome.Fail? ==> ContainsDb(Unprefixed(e.store), dbName) == ContainsDb(Unprefixed(m), dbName))
  {
    DropDbRemovesSubtree(m, failing, n, dbName);
    KeysAgree(m, dbName, "");
    KeysAgree(DropDbSpec(m, failing, n, dbName).store, dbName, "");
    assert InSubtree(DbPath(dbName), DbPath(dbName));
  }

  /** Writing the table options creates keys only, so a tree stays a tree and no key is lost. */
  lemma {:induction false} OptionOpsKeepClosed(m: Store, tbP: string, options: map<string, string>, cat: seq<TableOption>)
    requires AncestorClosed(m)
    ensures AncestorClosed(ApplyAll(m, OptionOps(tbP, options, cat)))
    ensures m.Keys <= ApplyAll(m, OptionOps(tbP, options, cat)).Keys
    decreases |cat|
  {
    if cat != [] {
      var o := cat[|cat| - 1];
      var init := OptionOps(tbP, options, cat[..|cat| - 1]);
      OptionOpsKeepClosed(m, tbP, options, cat[..|cat| - 1]);
      if o.name in options {
        var op := Created(OptionKey(tbP, o), options[o.name]);
        ApplyAllSnoc(m, init, op);
        CreatedKeepsClosed(ApplyAll(m, init), OptionKey(tbP, o), options[o.name]);
      } else {
        assert OptionOps(tbP, options, cat) == init + [];
        assert init + [] == init;
      }
    }
  }

  /** With none of the catalogued options given, `createTable` writes no option. */
  lemma {:induction false} OptionOpsNone(tbP: string, options: map<string, string>, cat: seq<TableOption>)
    requires forall o :: o in cat ==> o.name !in options
    ensures OptionOps(tbP, options, cat) == []
    decreases |cat|
  {
    if cat != [] {
      assert cat[|cat| - 1] in cat;
      assert forall o :: o in cat[..|cat| - 1] ==> o in cat;
      OptionOpsNone(tbP, options, cat[..|cat| - 1]);
    }
  }

  /** A successful `createTable` leaves the store its whole plan writes, over a store holding the database and not the table. */
  lemma CreateTablePassStore(m: Store, failing: Faults, n: nat, dbName: string, tableName: string,
                             options: map<string, string>)
    requires CreateTableSpec(m, failing, n, dbName, tableName, options).outcome.Pass?
    ensures var tbP := TablePath(dbName, tableName);
      && CreateTableSpec(m, failing, n, dbName, tableName, options).store == ApplyAll(m, TablePlan(tbP, options))
      && DbPath(dbName) in m && tbP !in m
  {
    var plan := TablePlan(TablePath(dbName, tableName), options);
    TableSpecCases(m, failing, n, dbName, tableName, options);
    assert plan[..|plan|] == plan;
  }

  /** The whole `createTable` plan keeps a tree a tree and loses no key. */
  lemma TablePlanKeepsClosed(m: Store, tbP: string, options: map<string, string>)
    requires AncestorClosed(m) && tbP != "" && tbP !in m
    ensures var after := ApplyAll(m, TablePlan(tbP, options));
      AncestorClosed(after) && tbP in after && m.Keys <= after.Keys
  {
    var ops := OptionOps(tbP, options, TableOptions);
    var m1 := Apply(m, Created(tbP, "PENDING"));
    OptionOpsBelow(tbP, options, TableOptions);
    CommitKeeps(m, tbP, ops);
    CreatedKeepsClosed(m, tbP, "PENDING");
    OptionOpsKeepClosed(m1, tbP, options, TableOptions);
    var x := ApplyAll(m1, ops);
    assert tbP in m1 && m.Keys <= m1.Keys;
    assert x[tbP := "READY"].Keys == x.Keys;
  }

  /** A table whose node is in the store passes the facade's checks. */
  lemma TableChecksPass(after: Store, dbName: string, tableName: string)
    requires DbPath(dbName) in after && TablePath(dbName, tableName) in after
    ensures ThrowIfNotDbTbExists(Unprefixed(after), dbName, tableName) == Pass
    ensures ContainsTable(Unprefixed(after), dbName, tableName) == Ok(true)
  {
    KeysAgree(after, dbName, tableName);
    CheckOrder(Unprefixed(after), dbName, tableName);
  }

  /** The partitioning columns and key column read back from the catalogued option keys. */
  lemma ColumnsRead(after: Store, dbName: string, tableName: string, lon: string, lat: string, sec: string)
    requires DbPath(dbName) in after && TablePath(dbName, tableName) in after
    requires var tbP := TablePath(dbName, tableName);
      && OptionKey(tbP, TableOptions[8]) in after && after[OptionKey(tbP, TableOptions[8])] == lon
      && OptionKey(tbP, TableOptions[9]) in after && after[OptionKey(tbP, TableOptions[9])] == lat
      && OptionKey(tbP, TableOptions[6]) in after && after[OptionKey(tbP, TableOptions[6])] == sec
    ensures PartitionCols(Unprefixed(after), dbName, tableName) == Ok([lon, lat, sec])
  {
    var f := Unprefixed(after);
    var tbP := TablePath(dbName, tableName);
    TableChecksPass(after, dbName, tableName);
    KeysAgree(after, dbName, tableName);
    var dir := PartitioningDir(f, dbName, tableName);
    assert OptionKey(tbP, TableOptions[6]) == dir + "secIndexColName";
    assert OptionKey(tbP, TableOptions[8]) == dir + "lonColName";
    assert OptionKey(tbP, TableOptions[9]) == dir + "latColName";
    ReadAllValues(f, dir, PartitionColNames);
    var r := ReadAll(f, dir, PartitionColNames);
    assert dir + PartitionColNames[0] == dir + "lonColName";
    assert dir + PartitionColNames[1] == dir + "latColName";
    assert dir + PartitionColNames[2] == dir + "secIndexColName";
    assert r.value == [lon, lat, sec];
  }

  /** The key column reads back from its catalogued option key. */
  lemma KeyColumnRead(after: Store, dbName: string, tableName: string, sec: string)
    requires DbPath(dbName) in after && TablePath(dbName, tableName) in after
    requires var tbP := TablePath(dbName, tableName);
      OptionKey(tbP, TableOptions[6]) in after && after[OptionKey(tbP, TableOptions[6])] == sec
    ensures GetKeyColumn(Unprefixed(after), dbName, tableName) == Ok(sec)
  {
    var f := Unprefixed(after);
    TableChecksPass(after, dbName, tableName);
    KeysAgree(after, dbName, tableName);
    assert OptionKey(TablePath(dbName, tableName), TableOptions[6]) == KeyColumnKey(f, dbName, tableName);
  }

  /** In a tree, a stored `subChunks` option makes the table chunked, at level 2 exactly when it is "1". */
  lemma ChunkLevelRead(after: Store, dbName: string, tableName: string, sub: string)
    requires AncestorClosed(after) && DbPath(dbName) in after && TablePath(dbName, tableName) in after
    requires var tbP := TablePath(dbName, tableName);
      OptionKey(tbP, TableOptions[5]) in after && after[OptionKey(tbP, TableOptions[5])] == sub
    ensures TableIsChunked(Unprefixed(after), dbName, tableName) == Ok(true)
    ensures GetChunkLevel(Unprefixed(after), dbName, tableName) == Ok(if sub == "1" then 2 else 1)
  {
    var f := Unprefixed(after);
    TableChecksPass(after, dbName, tableName);
    KeysAgree(after, dbName, tableName);
    assert OptionKey(TablePath(dbName, tableName), TableOptions[5]) == SubChunksKey(f, dbName, tableName);
    ChunkLevelCases(f, dbName, tableName);
    SubChunksBelowPartitioning(f, dbName, tableName);
  }

  /**
   * After a successful `createTable` the table passes the facade's checks,
   * and the options it was given read back: the key column, the three
   * partitioning columns, and the chunking level from `subChunks`.
   */
  lemma TableAfterCreateTable(m: Store, failing: Faults, n: nat, dbName: string, tableName: string,
                              options: map<string, string>)
    requires AncestorClosed(m)
    requires CreateTableSpec(m, failing, n, dbName, tableName, options).outcome.Pass?
    ensures var f := Unprefixed(CreateTableSpec(m, failing, n, dbName, tableName, options).store);
      && ThrowIfNotDbTbExists(f, dbName, tableName) == Pass
      && ContainsTable(f, dbName, tableName) == Ok(true)
      && ("secIndexColName" in options ==> GetKeyColumn(f, dbName, tableName) == Ok(options["secIndexColName"]))
      && ("lonColName" in options && "latColName" in options && "secIndexColName" in options ==>
            PartitionCols(f, dbName, tableName)
              == Ok([options["lonColName"], options["latColName"], options["secIndexColName"]]))
      && ("subChunks" in options ==>
            && TableIsChunked(f, dbName, tableName) == Ok(true)
            && GetChunkLevel(f, dbName, tableName) == Ok(if options["subChunks"] == "1" then 2 else 1))
  {
    var tbP := TablePath(dbName, tableName);
    CreateTablePassStore(m, failing, n, dbName, tableName, options);
    TablePlanKeepsClosed(m, tbP, options);
    TableCommitValues(m, tbP, options);
    var after := CreateTableSpec(m, failing, n, dbName, tableName, options).store;
    TableChecksPass(after, dbName, tableName);
    assert TableOptions[5] in TableOptions && TableOptions[6] in TableOptions;
    assert TableOptions[8] in TableOptions && TableOptions[9] in TableOptions;
    if "secIndexColName" in options {
      KeyColumnRead(after, dbName, tableName, options["secIndexColName"]);
    }
    if "lonColName" in options && "latColName" in options && "secIndexColName" in options {
      ColumnsRead(after, dbName, tableName, options["lonColName"], options["latColName"], options["secIndexColName"]);
    }
    if "subChunks" in options {
      ChunkLevelRead(after, dbName, tableName, options["subChunks"]);
    }
  }

  /**
   * A table registered without any of the catalogued options has no
   * partitioning node, so `getChunkLevel` as written raises for it, where
   * the intended reading answers 0.
   */
  lemma UnpartitionedCreateRaises(m: Store, failing: Faults, n: nat, dbName: string, tableName: string,
                                  options: map<string, string>)
    requires AncestorClosed(m)
    requires forall o :: o in TableOptions ==> o.name !in options
    requires CreateTableSpec(m, failing, n, dbName, tableName, options).outcome.Pass?
    ensures var f := Unprefixed(CreateTableSpec(m, failing, n, dbName, tableName, options).store);
      && GetChunkLevel(f, dbName, tableName) == Err(KeyDoesNotExist(SubChunksKey(f, dbName, tableName)))
      && GetChunkLevelIntended(f, dbName, tableName) == Ok(0)
  {
    var tbP := TablePath(dbName, tableName);
    CreateTablePassStore(m, failing, n, dbName, tableName, options);
    TablePlanKeepsClosed(m, tbP, options);
    OptionOpsNone(tbP, options, TableOptions);
    UnpartitionedRead(m, CreateTableSpec(m, failing, n, dbName, tableName, options).store, dbName, tableName);
  }

  /** Creating a node and then setting it adds the node and its missing ancestors, and no other key. */
  lemma CreateThenSetKeys(m: Store, p: string)
    ensures ApplyAll(m, [Created(p, "PENDING"), SetTo(p, "READY")]).Keys == m.Keys + Ancestors(p) + {p}
  {
    ApplyAllSnoc(m, [], Created(p, "PENDING"));
    ApplyAllSnoc(m, [Created(p, "PENDING")], SetTo(p, "READY"));
    assert [] + [Created(p, "PENDING")] == [Created(p, "PENDING")];
    assert [Created(p, "PENDING")] + [SetTo(p, "READY")] == [Created(p, "PENDING"), SetTo(p, "READY")];
    CreatedEffect(m, p, "PENDING");
  }

  /** In the store a plan with no option writes leaves, the table has no partitioning node. */
  lemma UnpartitionedRead(m: Store, after: Store, dbName: string, tableName: string)
    requires AncestorClosed(m) && AncestorClosed(after) && TablePath(dbName, tableName) !in m
    requires after == ApplyAll(m, [Created(TablePath(dbName, tableName), "PENDING"), SetTo(TablePath(dbName, tableName), "READY")])
    requires DbPath(dbName) in after
    ensures var f := Unprefixed(after);
      && GetChunkLevel(f, dbName, tableName) == Err(KeyDoesNotExist(SubChunksKey(f, dbName, tableName)))
      && GetChunkLevelIntended(f, dbName, tableName) == Ok(0)
  {
    CreateThenSetKeys(m, TablePath(dbName, tableName));
    UnpartitionedKeys(m, after, dbName, tableName);
  }

  /** A store that grew by a table node and its ancestors only reads that table as unpartitioned. */
  lemma UnpartitionedKeys(m: Store, after: Store, dbName: string, tableName: string)
    requires AncestorClosed(m) && AncestorClosed(after) && TablePath(dbName, tableName) !in m
    requires after.Keys == m.Keys + Ancestors(TablePath(dbName, tableName)) + {TablePath(dbName, tableName)}
    requires DbPath(dbName) in after
    ensures var f := Unprefixed(after);
      && GetChunkLevel(f, dbName, tableName) == Err(KeyDoesNotExist(SubChunksKey(f, dbName, tableName)))
      && GetChunkLevelIntended(f, dbName, tableName) == Ok(0)
  {
    var f := Unprefixed(after);
    var tbP := TablePath(dbName, tableName);
    KeysAgree(after, dbName, tableName);
    CheckOrder(f, dbName, tableName);
    var part := PartitioningKey(f, dbName, tableName);
    assert part == tbP + "/partitioning";
    assert part[..|tbP|] == tbP && part[|tbP|] == '/';
    AbsentRootEmptySubtree(m, tbP);
    assert part !in Ancestors(tbP);
    UnpartitionedTableRaises(f, dbName, tableName);
  }
}
