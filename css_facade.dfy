/**
 * The read side of the metadata store (`css::Facade`): existence checks in
 * a fixed order, the chunking level of a table, its partitioning columns and
 * key column, and a database's striping read back through its partitioning
 * id. Every key the facade reads is put under its prefix. The facade never
 * writes, so each read is a function of the store; the reads that collect
 * results in a loop are methods proved against those functions.
 */
module CssFacade {
  import opened Results
  import opened Decimal
  import opened KvStore

  /** A facade over the store `kv`, reading every key under `prefix`. */
  datatype Facade = Facade(prefix: string, kv: Store)

  /** What a read can fail with: a store error, or a stored value that is not an `int`. */
  datatype FacadeError = StoreError(e: CssError) | BadLexicalCast(text: string)

  /** The stripe counts of a database. */
  datatype StripingParams = StripingParams(stripes: int, subStripes: int)

  // ----- keys -----

  function DbKey(f: Facade, dbName: string): string
  {
    f.prefix + "/DATABASES/" + dbName
  }

  function TablesKey(f: Facade, dbName: string): string
  {
    f.prefix + "/DATABASES/" + dbName + "/TABLES"
  }

  function TableKey(f: Facade, dbName: string, tableName: string): string
  {
    f.prefix + "/DATABASES/" + dbName + "/TABLES/" + tableName
  }

  function PartitioningKey(f: Facade, dbName: string, tableName: string): string
  {
    TableKey(f, dbName, tableName) + "/partitioning"
  }

  /** Where the table's partitioning parameters are read: the partitioning key and a trailing '/'. */
  function PartitioningDir(f: Facade, dbName: string, tableName: string): string
  {
    TableKey(f, dbName, tableName) + "/partitioning/"
  }

  function SubChunksKey(f: Facade, dbName: string, tableName: string): string
  {
    PartitioningDir(f, dbName, tableName) + "subChunks"
  }

  function KeyColumnKey(f: Facade, dbName: string, tableName: string): string
  {
    TableKey(f, dbName, tableName) + "/partitioning/secIndexColName"
  }

  /** The partitioning node named by a partitioning id, with a trailing '/'. */
  function StripingDir(f: Facade, partitioningId: string): string
  {
    f.prefix + "/DATABASE_PARTITIONING/_" + partitioningId + "/"
  }

  // ----- single reads -----

  /** `KvInterface::get`: the stored value, or KEY_DOES_NOT_EXIST. */
  function Get(f: Facade, key: string): Result<string, CssError>
  {
    if key in f.kv then Ok(f.kv[key]) else Err(KeyDoesNotExist(key))
  }

  /** `containsDb`. */
  function ContainsDb(f: Facade, dbName: string): bool
  {
    DbKey(f, dbName) in f.kv
  }

  /** `_containsTable`: does not look at the database. */
  function ContainsTableUnchecked(f: Facade, dbName: string, tableName: string): bool
  {
    TableKey(f, dbName, tableName) in f.kv
  }

  /** `_throwIfNotDbExists`. */
  function ThrowIfNotDbExists(f: Facade, dbName: string): Outcome<CssError>
  {
    if !ContainsDb(f, dbName) then Fail(DbDoesNotExist(dbName)) else Pass
  }

  /** `containsTable`: raises DB_DOES_NOT_EXIST for a missing database, else answers. */
  function ContainsTable(f: Facade, dbName: string, tableName: string): Result<bool, CssError>
  {
    var c := ThrowIfNotDbExists(f, dbName);
    if c.Fail? then Err(c.error) else Ok(ContainsTableUnchecked(f, dbName, tableName))
  }

  /** `_throwIfNotTbExists`: goes through `containsTable`, so it raises for a missing database too. */
  function ThrowIfNotTbExists(f: Facade, dbName: string, tableName: string): Outcome<CssError>
  {
    var c := ContainsTable(f, dbName, tableName);
    if c.Err? then Fail(c.error)
    else if !c.value then Fail(TbDoesNotExist(dbName + "." + tableName))
    else Pass
  }

  /** `_throwIfNotDbTbExists`: the database check, then the table check. */
  function ThrowIfNotDbTbExists(f: Facade, dbName: string, tableName: string): Outcome<CssError>
  {
    var c := ThrowIfNotDbExists(f, dbName);
    if c.Fail? then c else ThrowIfNotTbExists(f, dbName, tableName)
  }

  /** `_tableIsChunked`: the table has a partitioning node. */
  function TableIsChunkedUnchecked(f: Facade, dbName: string, tableName: string): bool
  {
    PartitioningKey(f, dbName, tableName) in f.kv
  }

  /** `_tableIsSubChunked`: reads `partitioning/subChunks`, raising when it is missing, and compares it with "1". */
  function TableIsSubChunkedUnchecked(f: Facade, dbName: string, tableName: string): Result<bool, CssError>
  {
    var s := Get(f, SubChunksKey(f, dbName, tableName));
    if s.Err? then Err(s.error) else Ok(s.value == "1")
  }

  /** `tableIsChunked`. */
  function TableIsChunked(f: Facade, dbName: string, tableName: string): Result<bool, CssError>
  {
    var c := ThrowIfNotDbTbExists(f, dbName, tableName);
    if c.Fail? then Err(c.error) else Ok(TableIsChunkedUnchecked(f, dbName, tableName))
  }

  /** `tableIsSubChunked`. */
  function TableIsSubChunked(f: Facade, dbName: string, tableName: string): Result<bool, CssError>
  {
    var c := ThrowIfNotDbTbExists(f, dbName, tableName);
    if c.Fail? then Err(c.error) else TableIsSubChunkedUnchecked(f, dbName, tableName)
  }

  /** `getChunkLevel` as written: both tests are made, the subchunk test first decides. */
  function GetChunkLevel(f: Facade, dbName: string, tableName: string): Result<int, CssError>
  {
    var c := ThrowIfNotDbTbExists(f, dbName, tableName);
    if c.Fail? then Err(c.error)
    else
      var isChunked := TableIsChunkedUnchecked(f, dbName, tableName);
      var isSubChunked := TableIsSubChunkedUnchecked(f, dbName, tableName);
      if isSubChunked.Err? then Err(isSubChunked.error)
      else if isSubChunked.value then Ok(2)
      else if isChunked then Ok(1)
      else Ok(0)
  }

  /** `getChunkLevel` as its documentation describes it: 0 for a table without partitioning, never an error once the table exists. */
  function GetChunkLevelIntended(f: Facade, dbName: string, tableName: string): Result<int, CssError>
  {
    var c := ThrowIfNotDbTbExists(f, dbName, tableName);
    if c.Fail? then Err(c.error)
    else if !TableIsChunkedUnchecked(f, dbName, tableName) then Ok(0)
    else if Get(f, SubChunksKey(f, dbName, tableName)) == Ok("1") then Ok(2)
    else Ok(1)
  }

  /** `getKeyColumn`: every store error of the read is re-raised, a missing key included. */
  function GetKeyColumn(f: Facade, dbName: string, tableName: string): Result<string, CssError>
  {
    var c := ThrowIfNotDbTbExists(f, dbName, tableName);
    if c.Fail? then Err(c.error) else Get(f, KeyColumnKey(f, dbName, tableName))
  }

  /** `_getIntValue`: a read, then `boost::lexical_cast<int>`. */
  function GetIntValue(f: Facade, key: string): Result<int, FacadeError>
  {
    var s := Get(f, key);
    if s.Err? then Err(StoreError(s.error))
    else
      var v := LexicalCastInt(s.value);
      if v.None? then Err(BadLexicalCast(s.value)) else Ok(v.value)
  }

  /** `getDbStriping`: reads the partitioning id, then the two counts under the partitioning node it names. */
  function GetDbStriping(f: Facade, dbName: string): Result<StripingParams, FacadeError>
  {
    var c := ThrowIfNotDbExists(f, dbName);
    if c.Fail? then Err(StoreError(c.error))
    else
      var v := Get(f, DbKey(f, dbName) + "/partitioningId");
      if v.Err? then Err(StoreError(v.error))
      else
        var p := StripingDir(f, v.value);
        var stripes := GetIntValue(f, p + "nStripes");
        if stripes.Err? then Err(stripes.error)
        else
          var subStripes := GetIntValue(f, p + "nSubStripes");
          if subStripes.Err? then Err(subStripes.error)
          else Ok(StripingParams(stripes.value, subStripes.value))
  }

  // ----- the check order -----

  /**
   * Table-level reads check the database first and the table second, with
   * the table named "db.table" in its error.
   */
  lemma CheckOrder(f: Facade, dbName: string, tableName: string)
    ensures ThrowIfNotDbTbExists(f, dbName, tableName)
      == if DbKey(f, dbName) !in f.kv then Fail(DbDoesNotExist(dbName))
         else if TableKey(f, dbName, tableName) !in f.kv then Fail(TbDoesNotExist(dbName + "." + tableName))
         else Pass
    ensures ContainsTable(f, dbName, tableName)
      == if DbKey(f, dbName) !in f.kv then Err(DbDoesNotExist(dbName)) else Ok(TableKey(f, dbName, tableName) in f.kv)
  {
  }

  // ----- the chunking level -----

  /**
   * Once the checks pass, `getChunkLevel` is 2 exactly when `subChunks`
   * holds "1", 1 exactly when it holds something else and the partitioning
   * node exists, 0 exactly when it holds something else and there is no
   * partitioning node; a missing `subChunks` is raised.
   */
  lemma ChunkLevelCases(f: Facade, dbName: string, tableName: string)
    ensures var r := GetChunkLevel(f, dbName, tableName);
      var sub, part := SubChunksKey(f, dbName, tableName), PartitioningKey(f, dbName, tableName);
      && (ThrowIfNotDbTbExists(f, dbName, tableName).Fail? ==> r == Err(ThrowIfNotDbTbExists(f, dbName, tableName).error))
      && (ThrowIfNotDbTbExists(f, dbName, tableName).Pass? ==>
            && (r == Err(KeyDoesNotExist(sub)) <==> sub !in f.kv)
            && (r == Ok(2) <==> sub in f.kv && f.kv[sub] == "1")
            && (r == Ok(1) <==> sub in f.kv && f.kv[sub] != "1" && part in f.kv)
            && (r == Ok(0) <==> sub in f.kv && f.kv[sub] != "1" && part !in f.kv))
      && (r.Ok? ==> 0 <= r.value <= 2)
  {
  }

  /** `subChunks` lies below the partitioning node. */
  lemma SubChunksBelowPartitioning(f: Facade, dbName: string, tableName: string)
    ensures PartitioningKey(f, dbName, tableName) in Ancestors(SubChunksKey(f, dbName, tableName))
  {
    var part, sub := PartitioningKey(f, dbName, tableName), SubChunksKey(f, dbName, tableName);
    assert sub == part + "/subChunks";
    assert sub[..|part|] == part && sub[|part|] == '/';
  }

  /**
   * In a store that is a tree, `getChunkLevel` as written never answers 0:
   * reading `subChunks` succeeds only when the partitioning node exists.
   */
  lemma ChunkLevelNeverZero(f: Facade, dbName: string, tableName: string)
    requires AncestorClosed(f.kv)
    ensures GetChunkLevel(f, dbName, tableName) != Ok(0)
  {
    SubChunksBelowPartitioning(f, dbName, tableName);
  }

  /** A registered table without a partitioning node makes `getChunkLevel` as written raise, where 0 is documented. */
  lemma UnpartitionedTableRaises(f: Facade, dbName: string, tableName: string)
    requires AncestorClosed(f.kv) && ThrowIfNotDbTbExists(f, dbName, tableName).Pass?
    requires PartitioningKey(f, dbName, tableName) !in f.kv
    ensures GetChunkLevel(f, dbName, tableName) == Err(KeyDoesNotExist(SubChunksKey(f, dbName, tableName)))
    ensures GetChunkLevelIntended(f, dbName, tableName) == Ok(0)
  {
    SubChunksBelowPartitioning(f, dbName, tableName);
  }

  /**
   * The intended chunking level: once the checks pass it never fails, it is
   * 0 exactly when the table has no partitioning node, 2 exactly when
   * `subChunks` holds "1", and 1 otherwise; and it agrees with the code as
   * written whenever that answers.
   */
  lemma ChunkLevelIntendedCases(f: Facade, dbName: string, tableName: string)
    requires AncestorClosed(f.kv)
    ensures var r := GetChunkLevelIntended(f, dbName, tableName);
      var sub, part := SubChunksKey(f, dbName, tableName), PartitioningKey(f, dbName, tableName);
      && (ThrowIfNotDbTbExists(f, dbName, tableName).Fail? ==> r == Err(ThrowIfNotDbTbExists(f, dbName, tableName).error))
      && (ThrowIfNotDbTbExists(f, dbName, tableName).Pass? ==>
            && r.Ok?
            && (r.value == 0 <==> part !in f.kv)
            && (r.value == 2 <==> sub in f.kv && f.kv[sub] == "1")
            && (r.value == 1 <==> part in f.kv && !(sub in f.kv && f.kv[sub] == "1")))
      && (GetChunkLevel(f, dbName, tableName).Ok? ==> r == GetChunkLevel(f, dbName, tableName))
  {
    SubChunksBelowPartitioning(f, dbName, tableName);
  }

  // ----- the key column -----

  /**
   * `getKeyColumn` answers the stored key column, and re-raises a missing
   * one as KEY_DOES_NOT_EXIST: the empty answer its handler prepares is
   * never returned.
   */
  lemma KeyColumnRethrows(f: Facade, dbName: string, tableName: string)
    ensures var r := GetKeyColumn(f, dbName, tableName);
      var k := KeyColumnKey(f, dbName, tableName);
      && (ThrowIfNotDbTbExists(f, dbName, tableName).Pass? && k !in f.kv ==> r == Err(KeyDoesNotExist(k)))
      && (r.Ok? ==> ThrowIfNotDbTbExists(f, dbName, tableName).Pass? && k in f.kv && r.value == f.kv[k])
  {
  }

  /**
   * `tableIsChunked` answers whether the partitioning node exists;
   * `tableIsSubChunked` whether `subChunks` holds "1", raising when it is
   * missing. In a store that is a tree a subchunked table is chunked.
   */
  lemma TableFlagsCases(f: Facade, dbName: string, tableName: string)
    ensures var c := ThrowIfNotDbTbExists(f, dbName, tableName);
      var sub := SubChunksKey(f, dbName, tableName);
      && (c.Fail? ==> TableIsChunked(f, dbName, tableName) == Err(c.error) && TableIsSubChunked(f, dbName, tableName) == Err(c.error))
      && (c.Pass? ==> TableIsChunked(f, dbName, tableName) == Ok(PartitioningKey(f, dbName, tableName) in f.kv))
      && (c.Pass? ==> (TableIsSubChunked(f, dbName, tableName) == Err(KeyDoesNotExist(sub)) <==> sub !in f.kv))
      && (c.Pass? ==> (TableIsSubChunked(f, dbName, tableName) == Ok(true) <==> sub in f.kv && f.kv[sub] == "1"))
      && (AncestorClosed(f.kv) && TableIsSubChunked(f, dbName, tableName) == Ok(true) ==>
            TableIsChunked(f, dbName, tableName) == Ok(true))
  {
    SubChunksBelowPartitioning(f, dbName, tableName);
  }

  /**
   * `getDbStriping` raises DB_DOES_NOT_EXIST for a missing database and
   * KEY_DOES_NOT_EXIST for a missing partitioning id; an answer holds the
   * two counts stored under the partitioning node the id names.
   */
  lemma DbStripingCases(f: Facade, dbName: string)
    ensures var r := GetDbStriping(f, dbName);
      var idKey := DbKey(f, dbName) + "/partitioningId";
      && (!ContainsDb(f, dbName) ==> r == Err(StoreError(DbDoesNotExist(dbName))))
      && (ContainsDb(f, dbName) && idKey !in f.kv ==> r == Err(StoreError(KeyDoesNotExist(idKey))))
      && (r.Ok? ==> && ContainsDb(f, dbName) && idKey in f.kv
                    && var dir := StripingDir(f, f.kv[idKey]);
                    && dir + "nStripes" in f.kv && LexicalCastInt(f.kv[dir + "nStripes"]) == Some(r.value.stripes)
                    && dir + "nSubStripes" in f.kv && LexicalCastInt(f.kv[dir + "nSubStripes"]) == Some(r.value.subStripes))
  {
  }

  // ----- collecting reads -----

  /**
   * The names among `names` whose tables are chunked, in order, or the
   * first error a test raises.
   */
  function ChunkedAmong(f: Facade, dbName: string, names: seq<string>): Result<seq<string>, CssError>
    decreases |names|
  {
    if names == [] then Ok([])
    else
      var init := ChunkedAmong(f, dbName, names[..|names| - 1]);
      var t := names[|names| - 1];
      var c := TableIsChunked(f, dbName, t);
      if init.Err? then init
      else if c.Err? then Err(c.error)
      else if c.value then Ok(init.value + [t])
      else init
  }

  /** The names among `names` whose tables are subchunked, in order, or the first error a test raises. */
  function SubChunkedAmong(f: Facade, dbName: string, names: seq<string>): Result<seq<string>, CssError>
    decreases |names|
  {
    if names == [] then Ok([])
    else
      var init := SubChunkedAmong(f, dbName, names[..|names| - 1]);
      var t := names[|names| - 1];
      var c := TableIsSubChunked(f, dbName, t);
      if init.Err? then init
      else if c.Err? then Err(c.error)
      else if c.value then Ok(init.value + [t])
      else init
  }

  /** `a` is `b` with some elements left out, the rest in their order. */
  predicate Subsequence(a: seq<string>, b: seq<string>)
    decreases |b|
  {
    if b == [] then a == []
    else
      || (a != [] && a[|a| - 1] == b[|b| - 1] && Subsequence(a[..|a| - 1], b[..|b| - 1]))
      || Subsequence(a, b[..|b| - 1])
  }

  lemma SubsequenceSnoc(a: seq<string>, b: seq<string>, t: string)
    requires Subsequence(a, b)
    ensures Subsequence(a, b + [t]) && Subsequence(a + [t], b + [t])
  {
    assert (b + [t])[..|b|] == b;
    assert (a + [t])[..|a|] == a;
  }

  /** Every table listed under a database's TABLES node: the tests of the collecting reads do not fail their checks. */
  predicate ListedTables(f: Facade, dbName: string, names: seq<string>)
  {
    DbKey(f, dbName) in f.kv && forall i :: 0 <= i < |names| ==> TableKey(f, dbName, names[i]) in f.kv
  }

  /**
   * Over registered tables the chunked filter never fails; it keeps the
   * tables that have a partitioning node, in order, and no others.
   */
  lemma {:induction false} ChunkedAmongFilters(f: Facade, dbName: string, names: seq<string>)
    requires ListedTables(f, dbName, names)
    ensures var r := ChunkedAmong(f, dbName, names);
      && r.Ok? && Subsequence(r.value, names)
      && forall t :: t in r.value <==> t in names && PartitioningKey(f, dbName, t) in f.kv
    decreases |names|
  {
    if names != [] {
      var init, t := names[..|names| - 1], names[|names| - 1];
      assert ListedTables(f, dbName, init);
      ChunkedAmongFilters(f, dbName, init);
      SubsequenceSnoc(ChunkedAmong(f, dbName, init).value, init, t);
      assert init + [t] == names;
      assert TableKey(f, dbName, t) in f.kv;
      CheckOrder(f, dbName, t);
      assert TableIsChunked(f, dbName, t) == Ok(PartitioningKey(f, dbName, t) in f.kv);
      var r0 := ChunkedAmong(f, dbName, init).value;
      assert ChunkedAmong(f, dbName, names)
        == Ok(if PartitioningKey(f, dbName, t) in f.kv then r0 + [t] else r0);
    }
  }

  /**
   * Over registered tables the subchunked filter fails exactly when some
   * table has no `subChunks`, and then with the key of such a table.
   */
  lemma {:induction false} SubChunkedAmongFails(f: Facade, dbName: string, names: seq<string>)
    requires ListedTables(f, dbName, names)
    ensures var r := SubChunkedAmong(f, dbName, names);
      && (r.Err? <==> exists i :: 0 <= i < |names| && SubChunksKey(f, dbName, names[i]) !in f.kv)
      && (r.Err? ==> exists i :: 0 <= i < |names| && r.error == KeyDoesNotExist(SubChunksKey(f, dbName, names[i])))
    decreases |names|
  {
    if names != [] {
      var init, t := names[..|names| - 1], names[|names| - 1];
      assert ListedTables(f, dbName, init);
      SubChunkedAmongFails(f, dbName, init);
      assert TableKey(f, dbName, t) in f.kv;
      CheckOrder(f, dbName, t);
      var r0 := SubChunkedAmong(f, dbName, init);
      if r0.Ok? {
        assert forall i :: 0 <= i < |init| ==> SubChunksKey(f, dbName, init[i]) in f.kv;
        assert forall i :: 0 <= i < |names| - 1 ==> names[i] == init[i];
      } else {
        var i :| 0 <= i < |init| && SubChunksKey(f, dbName, init[i]) !in f.kv;
        assert names[i] == init[i];
        var j :| 0 <= j < |init| && r0.error == KeyDoesNotExist(SubChunksKey(f, dbName, init[j]));
        assert names[j] == init[j];
      }
    }
  }

  /**
   * Over registered tables that all have a `subChunks` key, the subchunked
   * filter keeps, in order, the tables whose `subChunks` holds "1", and no others.
   */
  lemma {:induction false} SubChunkedAmongFilters(f: Facade, dbName: string, names: seq<string>)
    requires ListedTables(f, dbName, names)
    requires forall i :: 0 <= i < |names| ==> SubChunksKey(f, dbName, names[i]) in f.kv
    ensures var r := SubChunkedAmong(f, dbName, names);
      && r.Ok? && Subsequence(r.value, names)
      && forall t :: t in r.value <==> t in names && f.kv[SubChunksKey(f, dbName, t)] == "1"
    decreases |names|
  {
    if names != [] {
      var init, t := names[..|names| - 1], names[|names| - 1];
      assert ListedTables(f, dbName, init);
      assert forall i :: 0 <= i < |init| ==> init[i] == names[i];
      SubChunkedAmongFilters(f, dbName, init);
      SubsequenceSnoc(SubChunkedAmong(f, dbName, init).value, init, t);
      assert init + [t] == names;
      assert TableKey(f, dbName, t) in f.kv;
      CheckOrder(f, dbName, t);
      assert TableIsSubChunked(f, dbName, t) == Ok(f.kv[SubChunksKey(f, dbName, t)] == "1");
      var r0 := SubChunkedAmong(f, dbName, init).value;
      assert SubChunkedAmong(f, dbName, names)
        == Ok(if f.kv[SubChunksKey(f, dbName, t)] == "1" then r0 + [t] else r0);
    }
  }

  /** The three partitioning columns `getPartitionCols` reads, in its order. */
  const PartitionColNames: seq<string> := ["lonColName", "latColName", "secIndexColName"]

  /** The values of `dir + names[i]`, in order, or the first missing key. */
  function ReadAll(f: Facade, dir: string, names: seq<string>): Result<seq<string>, CssError>
    decreases |names|
  {
    if names == [] then Ok([])
    else
      var init := ReadAll(f, dir, names[..|names| - 1]);
      var s := Get(f, dir + names[|names| - 1]);
      if init.Err? then init
      else if s.Err? then Err(s.error)
      else Ok(init.value + [s.value])
  }

  /** A successful `ReadAll` has one value per name, each the stored value; it fails exactly when a key is missing. */
  lemma {:induction false} ReadAllValues(f: Facade, dir: string, names: seq<string>)
    ensures var r := ReadAll(f, dir, names);
      && (r.Ok? <==> forall i :: 0 <= i < |names| ==> dir + names[i] in f.kv)
      && (r.Ok? ==> |r.value| == |names| && forall i :: 0 <= i < |names| ==> r.value[i] == f.kv[dir + names[i]])
      && (r.Err? ==> exists i :: 0 <= i < |names| && dir + names[i] !in f.kv && r.error == KeyDoesNotExist(dir + names[i]))
    decreases |names|
  {
    if names != [] {
      var init := names[..|names| - 1];
      ReadAllValues(f, dir, init);
      assert forall i :: 0 <= i < |init| ==> names[i] == init[i];
    }
  }

  /** `getPartitionCols` as a function of the store: the checks, then the three reads. */
  function PartitionCols(f: Facade, dbName: string, tableName: string): Result<seq<string>, CssError>
  {
    var c := ThrowIfNotDbTbExists(f, dbName, tableName);
    if c.Fail? then Err(c.error) else ReadAll(f, PartitioningDir(f, dbName, tableName), PartitionColNames)
  }

  /**
   * `getPartitionCols` answers exactly three values, those of `lonColName`,
   * `latColName` and `secIndexColName` in that order.
   */
  lemma PartitionColsValues(f: Facade, dbName: string, tableName: string)
    ensures var r := PartitionCols(f, dbName, tableName);
      var dir := PartitioningDir(f, dbName, tableName);
      r.Ok? ==> && |r.value| == 3
                && dir + "lonColName" in f.kv && r.value[0] == f.kv[dir + "lonColName"]
                && dir + "latColName" in f.kv && r.value[1] == f.kv[dir + "latColName"]
                && dir + "secIndexColName" in f.kv && r.value[2] == f.kv[dir + "secIndexColName"]
  {
    ReadAllValues(f, PartitioningDir(f, dbName, tableName), PartitionColNames);
  }

  // ----- the loops -----

  /** `getChunkedTables`: the chunked tables among the database's tables, in the order the store lists them. */
  method GetChunkedTables(f: Facade, dbName: string) returns (r: Result<seq<string>, CssError>, ghost listed: seq<string>)
    ensures DbKey(f, dbName) !in f.kv ==> r == Err(DbDoesNotExist(dbName))
    ensures DbKey(f, dbName) in f.kv && TablesKey(f, dbName) !in f.kv ==> r == Err(KeyDoesNotExist(TablesKey(f, dbName)))
    ensures DbKey(f, dbName) in f.kv && TablesKey(f, dbName) in f.kv ==>
      && (forall t :: t in listed <==> t in ChildNames(f.kv, TablesKey(f, dbName)))
      && r == ChunkedAmong(f, dbName, listed)
  {
    listed := [];
    var c := ThrowIfNotDbExists(f, dbName);
    if c.Fail? {
      return Err(c.error), listed;
    }
    var p := f.prefix + "/DATABASES/" + dbName + "/TABLES";
    var v := ListChildren(f.kv, p);
    if v.Err? {
      return Err(v.error), listed;
    }
    listed := v.value;
    var ret: seq<string> := [];
    var i := 0;
    while i < |v.value|
      invariant 0 <= i <= |v.value| && ChunkedAmong(f, dbName, v.value[..i]) == Ok(ret)
    {
      assert v.value[..i + 1][..i] == v.value[..i];
      var t := TableIsChunked(f, dbName, v.value[i]);
      if t.Err? {
        r := Err(t.error);
        ChunkedAmongErrStays(f, dbName, v.value, i + 1);
        return;
      }
      if t.value {
        ret := ret + [v.value[i]];
      }
      i := i + 1;
    }
    assert v.value[..i] == v.value;
    r := Ok(ret);
  }

  /** A chunked filter that failed on a prefix fails the same way on the whole list. */
  lemma {:induction false} ChunkedAmongErrStays(f: Facade, dbName: string, names: seq<string>, k: nat)
    requires k <= |names| && ChunkedAmong(f, dbName, names[..k]).Err?
    ensures ChunkedAmong(f, dbName, names) == ChunkedAmong(f, dbName, names[..k])
    decreases |names| - k
  {
    if k < |names| {
      assert names[..k + 1][..k] == names[..k];
      ChunkedAmongErrStays(f, dbName, names, k + 1);
    } else {
      assert names[..k] == names;
    }
  }

  /** `getSubChunkedTables`: the subchunked tables among the database's tables, in the order the store lists them. */
  method GetSubChunkedTables(f: Facade, dbName: string) returns (r: Result<seq<string>, CssError>, ghost listed: seq<string>)
    ensures DbKey(f, dbName) !in f.kv ==> r == Err(DbDoesNotExist(dbName))
    ensures DbKey(f, dbName) in f.kv && TablesKey(f, dbName) !in f.kv ==> r == Err(KeyDoesNotExist(TablesKey(f, dbName)))
    ensures DbKey(f, dbName) in f.kv && TablesKey(f, dbName) in f.kv ==>
      && (forall t :: t in listed <==> t in ChildNames(f.kv, TablesKey(f, dbName)))
      && r == SubChunkedAmong(f, dbName, listed)
  {
    listed := [];
    var c := ThrowIfNotDbExists(f, dbName);
    if c.Fail? {
      return Err(c.error), listed;
    }
    var p := f.prefix + "/DATABASES/" + dbName + "/TABLES";
    var v := ListChildren(f.kv, p);
    if v.Err? {
      return Err(v.error), listed;
    }
    listed := v.value;
    var ret: seq<string> := [];
    var i := 0;
    while i < |v.value|
      invariant 0 <= i <= |v.value| && SubChunkedAmong(f, dbName, v.value[..i]) == Ok(ret)
    {
      assert v.value[..i + 1][..i] == v.value[..i];
      var t := TableIsSubChunked(f, dbName, v.value[i]);
      if t.Err? {
        r := Err(t.error);
        SubChunkedAmongErrStays(f, dbName, v.value, i + 1);
        return;
      }
      if t.value {
        ret := ret + [v.value[i]];
      }
      i := i + 1;
    }
    assert v.value[..i] == v.value;
    r := Ok(ret);
  }

  /** A subchunked filter that failed on a prefix fails the same way on the whole list. */
  lemma {:induction false} SubChunkedAmongErrStays(f: Facade, dbName: string, names: seq<string>, k: nat)
    requires k <= |names| && SubChunkedAmong(f, dbName, names[..k]).Err?
    ensures SubChunkedAmong(f, dbName, names) == SubChunkedAmong(f, dbName, names[..k])
    decreases |names| - k
  {
    if k < |names| {
      assert names[..k + 1][..k] == names[..k];
      SubChunkedAmongErrStays(f, dbName, names, k + 1);
    } else {
      assert names[..k] == names;
    }
  }

  /** The children of a database's TABLES node are registered tables, so the collecting reads test only tables that exist. */
  lemma ChildrenAreTables(f: Facade, dbName: string, listed: seq<string>)
    requires DbKey(f, dbName) in f.kv
    requires forall t :: t in listed <==> t in ChildNames(f.kv, TablesKey(f, dbName))
    ensures ListedTables(f, dbName, listed)
  {
    forall i | 0 <= i < |listed| ensures TableKey(f, dbName, listed[i]) in f.kv {
      ChildNameMember(f.kv, TablesKey(f, dbName), listed[i]);
      assert TablesKey(f, dbName) + "/" + listed[i] == TableKey(f, dbName, listed[i]);
    }
  }

  /** `getPartitionCols`: the checks, then a read of each of the three columns in turn. */
  method GetPartitionCols(f: Facade, dbName: string, tableName: string) returns (r: Result<seq<string>, CssError>)
    ensures r == PartitionCols(f, dbName, tableName)
  {
    var c := ThrowIfNotDbTbExists(f, dbName, tableName);
    if c.Fail? {
      return Err(c.error);
    }
    var p := f.prefix + "/DATABASES/" + dbName + "/TABLES/" + tableName + "/partitioning/";
    var v := ["lonColName", "latColName", "secIndexColName"];
    var ret: seq<string> := [];
    var i := 0;
    while i < |v|
      invariant 0 <= i <= |v| && v == PartitionColNames && ReadAll(f, p, v[..i]) == Ok(ret)
    {
      assert v[..i + 1][..i] == v[..i];
      var s := Get(f, p + v[i]);
      if s.Err? {
        r := Err(s.error);
        ReadAllErrStays(f, p, v, i + 1);
        return;
      }
      ret := ret + [s.value];
      i := i + 1;
    }
    assert v[..i] == v;
    r := Ok(ret);
  }

  /** Reads that failed on a prefix of the names fail the same way on all of them. */
  lemma {:induction false} ReadAllErrStays(f: Facade, dir: string, names: seq<string>, k: nat)
    requires k <= |names| && ReadAll(f, dir, names[..k]).Err?
    ensures ReadAll(f, dir, names) == ReadAll(f, dir, names[..k])
    decreases |names| - k
  {
    if k < |names| {
      assert names[..k + 1][..k] == names[..k];
      ReadAllErrStays(f, dir, names, k + 1);
    } else {
      assert names[..k] == names;
    }
  }
}
