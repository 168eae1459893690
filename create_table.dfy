/**
 * The writes of `createTable`: the table node (PENDING, then READY) and
 * one key for each catalogued option the caller gave, in catalogue order.
 * Options outside the catalogue are never read.
 */
module CreateTablePlan {
  import opened Results
  import opened KvStore
  import opened AdminPlan

  // ----- the option catalogue -----

  /** A table option `createTable` knows: the section it is stored under ("", "/isRefMatch" or "/partitioning") and its name. */
  datatype TableOption = TableOption(section: string, name: string)

  /** The options `createTable` looks for, in the order it writes them. */
  const TableOptions: seq<TableOption> := [
    TableOption("", "schema"),
    TableOption("", "compression"),
    TableOption("", "isRefMatch"),
    TableOption("/isRefMatch", "keyColInTable1"),
    TableOption("/isRefMatch", "keyColInTable2"),
    TableOption("/partitioning", "subChunks"),
    TableOption("/partitioning", "secIndexColName"),
    TableOption("/partitioning", "drivingTable"),
    TableOption("/partitioning", "lonColName"),
    TableOption("/partitioning", "latColName"),
    TableOption("/partitioning", "keyColName")
  ]

  /** Where an option is stored, relative to the table node. */
  function Suffix(o: TableOption): string
  {
    o.section + "/" + o.name
  }

  /** The key an option is stored under. */
  function OptionKey(tbP: string, o: TableOption): string
  {
    tbP + Suffix(o)
  }

  /** No two options of the catalogue share a key. */
  predicate KeysDistinct(cat: seq<TableOption>)
  {
    forall i, j :: 0 <= i < j < |cat| ==> Suffix(cat[i]) != Suffix(cat[j])
  }

  /** Each section is empty or a path segment of its own, so every key lies below the table node. */
  predicate SectionsRooted(cat: seq<TableOption>)
  {
    forall o :: o in cat ==> o.section == "" || o.section[0] == '/'
  }

  /** The catalogue's names are slash-free and distinct, and its sections start a segment. */
  lemma CatalogueWellFormed()
    ensures KeysDistinct(TableOptions) && SectionsRooted(TableOptions)
  {
    var names := seq(|TableOptions|, i requires 0 <= i < |TableOptions| => TableOptions[i].name);
    CatalogueNames(names);
    forall i, j | 0 <= i < j < |TableOptions| ensures Suffix(TableOptions[i]) != Suffix(TableOptions[j]) {
      assert names[i] == TableOptions[i].name && names[j] == TableOptions[j].name;
      ChildPathsDiffer(TableOptions[i].section, TableOptions[i].name, TableOptions[j].section, TableOptions[j].name);
    }
  }

  lemma CatalogueNames(names: seq<string>)
    requires names == ["schema", "compression", "isRefMatch", "keyColInTable1", "keyColInTable2", "subChunks",
                       "secIndexColName", "drivingTable", "lonColName", "latColName", "keyColName"]
    ensures SlashFree(names) && Distinct(names)
  {
    assert "isRefMatch"[0] == 'i' && "lonColName"[0] == 'l' && "latColName"[0] == 'l' && "keyColName"[0] == 'k';
    assert "lonColName"[1] == 'o' && "latColName"[1] == 'a';
    assert "keyColInTable1"[13] == '1' && "keyColInTable2"[13] == '2';
  }

  // ----- the plan -----

  /** The creates for the catalogued options the caller gave, in catalogue order. */
  function OptionOps(tbP: string, options: map<string, string>, cat: seq<TableOption>): (ops: seq<Mutation>)
    ensures |ops| <= |cat|
    decreases |cat|
  {
    if cat == [] then []
    else
      var o := cat[|cat| - 1];
      OptionOps(tbP, options, cat[..|cat| - 1]) + (if o.name in options then [Created(OptionKey(tbP, o), options[o.name])] else [])
  }

  /** The writes of `createTable` when every step succeeds. */
  function TablePlan(tbP: string, options: map<string, string>): (plan: seq<Mutation>)
    ensures 2 <= |plan| <= 13
  {
    [Created(tbP, "PENDING")] + OptionOps(tbP, options, TableOptions) + [SetTo(tbP, "READY")]
  }

  /** The option writes for a prefix of the catalogue begin the option writes for all of it. */
  lemma {:induction false} OptionOpsPrefix(tbP: string, options: map<string, string>, cat: seq<TableOption>, j: nat)
    requires j <= |cat|
    ensures OptionOps(tbP, options, cat[..j]) <= OptionOps(tbP, options, cat)
    decreases |cat|
  {
    if j < |cat| {
      assert cat[..|cat| - 1][..j] == cat[..j];
      OptionOpsPrefix(tbP, options, cat[..|cat| - 1], j);
    } else {
      assert cat[..j] == cat;
    }
  }

  /** Options with the same catalogued entries give the same writes, whatever else they hold. */
  lemma {:induction false} OptionOpsOnlyCatalogued(tbP: string, o1: map<string, string>, o2: map<string, string>, cat: seq<TableOption>)
    requires forall o :: o in cat ==> (o.name in o1 <==> o.name in o2) && (o.name in o1 ==> o1[o.name] == o2[o.name])
    ensures OptionOps(tbP, o1, cat) == OptionOps(tbP, o2, cat)
    decreases |cat|
  {
    if cat != [] {
      assert cat[|cat| - 1] in cat;
      OptionOpsOnlyCatalogued(tbP, o1, o2, cat[..|cat| - 1]);
    }
  }

  /** Every write of `ops` lies strictly below `p`. */
  predicate AllBelow(ops: seq<Mutation>, p: string)
  {
    forall i :: 0 <= i < |ops| ==> InSubtree(ops[i].path, p) && ops[i].path != p
  }

  /** Every option write is a create strictly below the table node. */
  lemma {:induction false} OptionOpsBelow(tbP: string, options: map<string, string>, cat: seq<TableOption>)
    requires SectionsRooted(cat)
    ensures AllBelow(OptionOps(tbP, options, cat), tbP) && NoDeletes(OptionOps(tbP, options, cat))
    decreases |cat|
  {
    if cat != [] {
      assert forall o :: o in cat[..|cat| - 1] ==> o in cat;
      var init := OptionOps(tbP, options, cat[..|cat| - 1]);
      OptionOpsBelow(tbP, options, cat[..|cat| - 1]);
      var o := cat[|cat| - 1];
      var k := OptionKey(tbP, o);
      assert o in cat && k[..|tbP|] == tbP && |k| > |tbP|;
      if o.section == "" {
        assert k[|tbP|] == '/';
      } else {
        assert Suffix(o)[0] == o.section[0];
        assert k[|tbP|] == Suffix(o)[0];
      }
      assert InSubtree(k, tbP) && k != tbP;
      var ops := OptionOps(tbP, options, cat);
      assert ops == init + (if o.name in options then [Created(k, options[o.name])] else []);
      forall i | 0 <= i < |ops| ensures InSubtree(ops[i].path, tbP) && ops[i].path != tbP && !ops[i].Deleted? {
        if i < |init| {
          assert ops[i] == init[i];
        }
      }
    }
  }

  /** The table node is created first and committed last; every write lies below it. */
  lemma TablePlanUnder(tbP: string, options: map<string, string>)
    ensures var plan := TablePlan(tbP, options);
      && plan[0] == Created(tbP, "PENDING") && plan[|plan| - 1] == SetTo(tbP, "READY")
      && AllUnder(plan, tbP, tbP) && NoDeletes(plan) && Avoids(plan[1..|plan| - 1], tbP)
  {
    CatalogueWellFormed();
    OptionOpsBelow(tbP, options, TableOptions);
    var ops := OptionOps(tbP, options, TableOptions);
    var plan := TablePlan(tbP, options);
    assert plan[1..|plan| - 1] == ops;
    forall i | 0 <= i < |plan| ensures InSubtree(plan[i].path, tbP) && !plan[i].Deleted? {
      if 0 < i < |plan| - 1 {
        assert plan[i] == ops[i - 1];
      }
    }
  }

  /** After the option writes, each catalogued option the caller gave is stored under its key with its value. */
  lemma {:induction false} OptionOpsValues(m: Store, tbP: string, options: map<string, string>, cat: seq<TableOption>)
    requires KeysDistinct(cat)
    ensures var after := ApplyAll(m, OptionOps(tbP, options, cat));
      forall o :: o in cat && o.name in options ==> OptionKey(tbP, o) in after && after[OptionKey(tbP, o)] == options[o.name]
    decreases |cat|
  {
    if cat != [] {
      var init := cat[..|cat| - 1];
      var last := cat[|cat| - 1];
      var ops := OptionOps(tbP, options, init);
      var before := ApplyAll(m, ops);
      var after := ApplyAll(m, OptionOps(tbP, options, cat));
      OptionOpsValues(m, tbP, options, init);
      if last.name in options {
        ApplyAllSnoc(m, ops, Created(OptionKey(tbP, last), options[last.name]));
        CreatedEffect(before, OptionKey(tbP, last), options[last.name]);
      } else {
        assert OptionOps(tbP, options, cat) == ops + [];
        assert ops + [] == ops;
      }
      forall o | o in cat && o.name in options ensures OptionKey(tbP, o) in after && after[OptionKey(tbP, o)] == options[o.name] {
        if o != last {
          var i :| 0 <= i < |cat| && cat[i] == o;
          assert i < |cat| - 1 && init[i] == o;
          assert Suffix(o) != Suffix(last);
          assert OptionKey(tbP, o)[|tbP|..] == Suffix(o) && OptionKey(tbP, last)[|tbP|..] == Suffix(last);
        }
      }
    }
  }

  /** The option's name is slash-free, and its section is empty or one slash and a slash-free segment. */
  predicate SegmentOption(o: TableOption)
  {
    && '/' !in o.name
    && (o.section == "" || (|o.section| > 1 && o.section[0] == '/' && '/' !in o.section[1..]))
  }

  predicate SectionsSegments(cat: seq<TableOption>)
  {
    forall i :: 0 <= i < |cat| ==> SegmentOption(cat[i])
  }

  lemma CatalogueSegments()
    ensures SectionsSegments(TableOptions)
  {
    CatalogueNamesSlashFree();
    CatalogueSections();
    forall i | 0 <= i < |TableOptions| ensures SegmentOption(TableOptions[i]) {
      KnownSectionSegment(TableOptions[i]);
    }
  }

  /** An option with a slash-free name in one of the catalogue's sections is a segment option. */
  lemma KnownSectionSegment(o: TableOption)
    requires '/' !in o.name
    requires o.section == "" || o.section == "/isRefMatch" || o.section == "/partitioning"
    ensures SegmentOption(o)
  {
    if o.section == "/isRefMatch" {
      SectionSegment(o.section, "isRefMatch");
    } else if o.section == "/partitioning" {
      SectionSegment(o.section, "partitioning");
    }
  }

  lemma CatalogueNamesSlashFree()
    ensures forall i :: 0 <= i < |TableOptions| ==> '/' !in TableOptions[i].name
  {
    var names := seq(|TableOptions|, i requires 0 <= i < |TableOptions| => TableOptions[i].name);
    CatalogueNames(names);
    forall i | 0 <= i < |TableOptions| ensures '/' !in TableOptions[i].name {
      assert names[i] == TableOptions[i].name;
    }
  }

  lemma CatalogueSections()
    ensures forall i :: 0 <= i < |TableOptions| ==>
      TableOptions[i].section == "" || TableOptions[i].section == "/isRefMatch" || TableOptions[i].section == "/partitioning"
  {
  }

  lemma SectionSegment(section: string, seg: string)
    requires section == "/" + seg && seg != "" && '/' !in seg
    ensures |section| > 1 && section[0] == '/' && '/' !in section[1..]
  {
    assert section[1..] == seg;
  }

  /**
   * The keys the option writes add below the table node: the key of each
   * catalogued option the caller gave and, for one kept in a section, that
   * section's node, which the create makes as a missing parent.
   */
  ghost function OptionKeysAdded(tbP: string, options: map<string, string>, cat: seq<TableOption>): set<string>
  {
    (set o | o in cat && o.name in options :: OptionKey(tbP, o))
    + (set o | o in cat && o.name in options && o.section != "" :: tbP + o.section)
  }

  /** An option's key has the table node, its ancestors and the option's section node as its ancestors. */
  lemma OptionKeyAncestors(tbP: string, o: TableOption)
    requires tbP != "" && SegmentOption(o)
    ensures Ancestors(OptionKey(tbP, o)) == Ancestors(tbP) + {tbP} + (if o.section == "" then {} else {tbP + o.section})
  {
    if o.section == "" {
      assert OptionKey(tbP, o) == tbP + "/" + o.name;
      AncestorsOfChild(tbP, o.name);
    } else {
      var seg := o.section[1..];
      assert o.section == "/" + seg;
      assert tbP + o.section == tbP + "/" + seg;
      assert OptionKey(tbP, o) == (tbP + o.section) + "/" + o.name;
      AncestorsOfChild(tbP, seg);
      AncestorsOfChild(tbP + o.section, o.name);
    }
  }

  /** On a store holding the table node and its parents, the option writes add exactly `OptionKeysAdded`. */
  lemma {:induction false} OptionOpsKeys(m1: Store, tbP: string, options: map<string, string>, cat: seq<TableOption>)
    requires tbP != "" && tbP in m1 && Ancestors(tbP) <= m1.Keys && SectionsSegments(cat)
    ensures ApplyAll(m1, OptionOps(tbP, options, cat)).Keys == m1.Keys + OptionKeysAdded(tbP, options, cat)
    decreases |cat|
  {
    if cat == [] {
      assert OptionKeysAdded(tbP, options, cat) == {};
    } else {
      var init, last := cat[..|cat| - 1], cat[|cat| - 1];
      assert cat == init + [last];
      assert forall i :: 0 <= i < |init| ==> init[i] == cat[i];
      OptionOpsKeys(m1, tbP, options, init);
      OptionKeysAddedSnoc(tbP, options, init, last);
      var ops := OptionOps(tbP, options, init);
      var before := ApplyAll(m1, ops);
      if last.name in options {
        var key, v := OptionKey(tbP, last), options[last.name];
        var sec: set<string> := if last.section == "" then {} else {tbP + last.section};
        assert OptionOps(tbP, options, cat) == ops + [Created(key, v)];
        ApplyAllSnoc(m1, ops, Created(key, v));
        CreatedEffect(before, key, v);
        OptionKeyAncestors(tbP, last);
        KeysGrow(m1.Keys, OptionKeysAdded(tbP, options, init), before.Keys, Apply(before, Created(key, v)).Keys,
                 Ancestors(tbP) + {tbP}, key, sec);
      } else {
        assert OptionOps(tbP, options, cat) == ops + [];
        assert ops + [] == ops;
      }
    }
  }

  lemma KeysGrow(base: set<string>, added: set<string>, before: set<string>, after: set<string>,
                 root: set<string>, key: string, sec: set<string>)
    requires before == base + added && root <= base && after == before + (root + sec) + {key}
    ensures after == base + (added + {key} + sec)
  {
  }

  /** The keys added for a catalogue are those for all but its last option and those for the last. */
  lemma OptionKeysAddedSnoc(tbP: string, options: map<string, string>, init: seq<TableOption>, last: TableOption)
    ensures OptionKeysAdded(tbP, options, init + [last])
      == OptionKeysAdded(tbP, options, init)
         + (if last.name in options then {OptionKey(tbP, last)} + (if last.section == "" then {} else {tbP + last.section}) else {})
  {
    var cat := init + [last];
    assert forall o :: o in cat <==> o in init || o == last;
  }

  /**
   * A plan that ran to the end, on a store without the table node, leaves
   * the table READY with each catalogued option the caller gave under its
   * key, and every key that was there with its old value.
   */
  lemma TableCommitValues(m: Store, tbP: string, options: map<string, string>)
    requires AncestorClosed(m) && tbP != "" && tbP !in m
    ensures var after := ApplyAll(m, TablePlan(tbP, options));
      && tbP in after && after[tbP] == "READY"
      && (forall o :: o in TableOptions && o.name in options ==>
            OptionKey(tbP, o) in after && after[OptionKey(tbP, o)] == options[o.name])
      && (forall k :: k in m ==> k in after && after[k] == m[k])
      && after.Keys == m.Keys + Ancestors(tbP) + {tbP} + OptionKeysAdded(tbP, options, TableOptions)
  {
    var ops := OptionOps(tbP, options, TableOptions);
    var m1 := Apply(m, Created(tbP, "PENDING"));
    CatalogueWellFormed();
    OptionOpsBelow(tbP, options, TableOptions);
    CommitKeeps(m, tbP, ops);
    OptionOpsValues(m1, tbP, options, TableOptions);
    TableCommitKeys(m, tbP, options);
    forall o | o in TableOptions && o.name in options ensures OptionKey(tbP, o) != tbP {
      assert OptionKey(tbP, o)[|tbP|..] == Suffix(o);
    }
  }

  /** The keys a committed `createTable` plan leaves: the old ones, the table node with its parents, and the option keys. */
  lemma TableCommitKeys(m: Store, tbP: string, options: map<string, string>)
    requires AncestorClosed(m) && tbP != "" && tbP !in m
    ensures ApplyAll(m, TablePlan(tbP, options)).Keys == m.Keys + Ancestors(tbP) + {tbP} + OptionKeysAdded(tbP, options, TableOptions)
  {
    var ops := OptionOps(tbP, options, TableOptions);
    var m1 := Apply(m, Created(tbP, "PENDING"));
    CatalogueWellFormed();
    CatalogueSegments();
    OptionOpsBelow(tbP, options, TableOptions);
    CommitKeeps(m, tbP, ops);
    CreatedEffect(m, tbP, "PENDING");
    OptionOpsKeys(m1, tbP, options, TableOptions);
  }

  /**
   * A catalogued option the caller left out is not stored by a committed
   * plan, unless its key is the section node of an option the caller gave
   * (as `isRefMatch` is for `isRefMatch/keyColInTable1`), which the create
   * of that option makes as an empty parent.
   */
  lemma TableOmitsAbsentOptions(m: Store, tbP: string, options: map<string, string>, o: TableOption)
    requires AncestorClosed(m) && tbP != "" && tbP !in m
    requires o in TableOptions && o.name !in options
    requires forall o2 :: o2 in TableOptions && o2.name in options ==> tbP + o2.section != OptionKey(tbP, o)
    ensures OptionKey(tbP, o) !in ApplyAll(m, TablePlan(tbP, options))
  {
    TableCommitKeys(m, tbP, options);
    AbsentRootEmptySubtree(m, tbP);
    OptionKeyBelow(tbP, o);
    GivenOptionKeysDiffer(tbP, options, o);
    NotAdded(tbP, options, TableOptions, OptionKey(tbP, o));
  }

  /** The key of an option the caller left out is the key of no option the caller gave. */
  lemma GivenOptionKeysDiffer(tbP: string, options: map<string, string>, o: TableOption)
    requires o in TableOptions && o.name !in options
    ensures forall o2 :: o2 in TableOptions && o2.name in options ==> OptionKey(tbP, o2) != OptionKey(tbP, o)
  {
    forall o2 | o2 in TableOptions && o2.name in options ensures OptionKey(tbP, o2) != OptionKey(tbP, o) {
      if OptionKey(tbP, o2) == OptionKey(tbP, o) {
        assert OptionKey(tbP, o2)[|tbP|..] == Suffix(o2) && OptionKey(tbP, o)[|tbP|..] == Suffix(o);
        SuffixInjective(o, o2);
      }
    }
  }

  /** A key that is neither the key nor the section node of a given option is not added by the option writes. */
  lemma NotAdded(tbP: string, options: map<string, string>, cat: seq<TableOption>, k: string)
    requires forall o2 :: o2 in cat && o2.name in options ==> OptionKey(tbP, o2) != k && tbP + o2.section != k
    ensures k !in OptionKeysAdded(tbP, options, cat)
  {
  }

  /** An option's key lies strictly below the table node. */
  lemma OptionKeyBelow(tbP: string, o: TableOption)
    requires o in TableOptions
    ensures InSubtree(OptionKey(tbP, o), tbP) && OptionKey(tbP, o) != tbP && OptionKey(tbP, o) !in Ancestors(tbP)
  {
    CatalogueWellFormed();
    var k := OptionKey(tbP, o);
    assert k[..|tbP|] == tbP && |k| > |tbP|;
    assert Suffix(o)[0] == '/' by {
      if o.section != "" {
        assert Suffix(o)[0] == o.section[0];
      }
    }
    assert k[|tbP|] == Suffix(o)[0];
  }

  /** Different options of the catalogue are stored under different suffixes. */
  lemma SuffixInjective(a: TableOption, b: TableOption)
    requires a in TableOptions && b in TableOptions && Suffix(a) == Suffix(b)
    ensures a == b
  {
    CatalogueWellFormed();
    var i :| 0 <= i < |TableOptions| && TableOptions[i] == a;
    var j :| 0 <= j < |TableOptions| && TableOptions[j] == b;
  }

  /** Creating `p` PENDING, writing below it and setting it READY keeps every key that was there. */
  lemma CommitKeeps(m: Store, p: string, ops: seq<Mutation>)
    requires AncestorClosed(m) && p != "" && p !in m && AllBelow(ops, p) && NoDeletes(ops)
    ensures var after := ApplyAll(m, [Created(p, "PENDING")] + ops + [SetTo(p, "READY")]);
      && after == ApplyAll(Apply(m, Created(p, "PENDING")), ops)[p := "READY"]
      && (forall k :: k in m ==> k in after && after[k] == m[k])
  {
    var plan := [Created(p, "PENDING")] + ops + [SetTo(p, "READY")];
    ApplyAllAppend(m, [Created(p, "PENDING")], ops);
    assert ApplyAll(m, [Created(p, "PENDING")]) == Apply(m, Created(p, "PENDING"));
    ApplyAllSnoc(m, [Created(p, "PENDING")] + ops, SetTo(p, "READY"));
    AbsentRootEmptySubtree(m, p);
    forall k | k in m ensures k in ApplyAll(m, plan) && ApplyAll(m, plan)[k] == m[k] {
      forall i | 0 <= i < |plan| ensures plan[i].path != k && !plan[i].Deleted? {
        if 0 < i < |plan| - 1 {
          assert plan[i] == ops[i - 1];
        }
      }
      WritesElsewhereKeep(m, plan, k);
    }
  }

  // ----- running the plan -----

  /** How many writes of `createTable` succeed. */
  ghost function TableStop(m: Store, failing: Faults, tbP: string, options: map<string, string>): (s: nat)
    ensures s <= |TablePlan(tbP, options)|
  {
    var plan := TablePlan(tbP, options);
    FirstStop(m, failing, plan, NoNeeds(|plan|), map[], 0)
  }

  /**
   * `createTable` as a function of the store: refused when the database
   * does not exist, then when the table does; otherwise the writes run up
   * to their first failure, and a failure runs the cleanup, deleting the
   * table node, and re-raises. A delete that fails raises its own error
   * instead (it always fails when the very first create did).
   */
  ghost function CreateTableSpec(m: Store, failing: Faults, n: nat, dbName: string, tableName: string,
                                 options: map<string, string>): Effect
  {
    var tbP := TablePath(dbName, tableName);
    if DbPath(dbName) !in m then Effect(m, n, Fail(CssException(DbDoesNotExist(dbName))))
    else if tbP in m then Effect(m, n, Fail(CssException(TbExists(dbName + "." + tableName))))
    else
      var plan := TablePlan(tbP, options);
      var s := TableStop(m, failing, tbP, options);
      var mk := Trace(m, plan)[s];
      var err := if s == |plan| then None else StepError(plan[s], None, map[], failing, mk);
      if err.None? then Effect(mk, n, Pass)
      else
        var c := Cleanup(mk, failing, [Deleted(tbP)], err.value);
        Effect(c.0, n, Fail(c.1))
  }

  /**
   * `createTable` checks the database first and the table second:
   * `DbDoesNotExist` exactly when the database node is absent, `TbExists` of
   * "db.table" exactly when the database is there and so is the table node,
   * both before touching the store. Every other error comes from a store call.
   */
  lemma CreateTableGuards(m: Store, failing: Faults, n: nat, dbName: string, tableName: string,
                          options: map<string, string>)
    ensures var e := CreateTableSpec(m, failing, n, dbName, tableName, options);
      var tbP := TablePath(dbName, tableName);
      && (e.outcome == Fail(CssException(DbDoesNotExist(dbName))) <==> DbPath(dbName) !in m)
      && (e.outcome == Fail(CssException(TbExists(dbName + "." + tableName))) <==> DbPath(dbName) in m && tbP in m)
      && (DbPath(dbName) !in m || tbP in m ==> e.store == m)
      && (e.outcome.Fail? && DbPath(dbName) in m && tbP !in m ==> StoreError(e.outcome.error))
  {
    var tbP := TablePath(dbName, tableName);
    if DbPath(dbName) in m && tbP !in m {
      var plan := TablePlan(tbP, options);
      var s := TableStop(m, failing, tbP, options);
      if s < |plan| {
        var mk := Trace(m, plan)[s];
        StepErrorIsStoreError(plan[s], None, map[], failing, mk);
        var err := StepError(plan[s], None, map[], failing, mk);
        if err.Some? {
          CleanupIsStoreError(mk, failing, [Deleted(tbP)], err.value);
        }
      }
    }
  }

  /** `CreateTableSpec` once both guards have passed, given where the writes stopped and the error that stopped them. */
  lemma CreateTableSpecAbsent(m: Store, failing: Faults, n: nat, dbName: string, tableName: string,
                              options: map<string, string>, s: nat, e: Outcome<AdminError>)
    requires DbPath(dbName) in m && TablePath(dbName, tableName) !in m
    requires s == TableStop(m, failing, TablePath(dbName, tableName), options)
    requires (e.Pass? <==> s == |TablePlan(TablePath(dbName, tableName), options)|)
    requires e.Fail? ==> StepError(TablePlan(TablePath(dbName, tableName), options)[s], None, map[], failing,
                                   Trace(m, TablePlan(TablePath(dbName, tableName), options))[s]) == Some(e.error)
    ensures var tbP := TablePath(dbName, tableName);
      var mk := Trace(m, TablePlan(tbP, options))[s];
      CreateTableSpec(m, failing, n, dbName, tableName, options)
        == if e.Pass? then Effect(mk, n, Pass)
           else Effect(Cleanup(mk, failing, [Deleted(tbP)], e.error).0, n, Fail(Cleanup(mk, failing, [Deleted(tbP)], e.error).1))
  {
  }

  /**
   * The cleanup finds the table node, still PENDING, exactly when the first
   * create succeeded. Its delete then fails exactly when the backend fails
   * deletes of that path, raising the backend error and leaving the store
   * as it stands; otherwise the handled error is re-raised. With no node,
   * the delete raises KEY_DOES_NOT_EXIST.
   */
  lemma TableRollbackFinds(m: Store, failing: Faults, tbP: string, options: map<string, string>, handled: AdminError)
    requires tbP !in m
    ensures var s := TableStop(m, failing, tbP, options);
      var plan := TablePlan(tbP, options);
      var mk := Trace(m, plan)[s];
      var c := Cleanup(mk, failing, [Deleted(tbP)], handled);
      && (s == 0 ==> tbP !in mk && c == (mk, CssException(KeyDoesNotExist(tbP))))
      && (1 <= s < |plan| ==> tbP in mk && mk[tbP] == "PENDING")
      && (1 <= s < |plan| ==>
            c == if tbP in failing.deletes then (mk, CssException(BackendFailure(tbP))) else (Apply(mk, Deleted(tbP)), handled))
  {
    var plan := TablePlan(tbP, options);
    var s := TableStop(m, failing, tbP, options);
    var mk := Trace(m, plan)[s];
    TraceApplyAll(m, plan, s);
    CleanupFirst(mk, failing, Deleted(tbP), [], handled);
    assert [Deleted(tbP)] + [] == [Deleted(tbP)];
    if 1 <= s < |plan| {
      FirstStopStops(m, failing, plan, NoNeeds(|plan|), map[], 0);
      TablePlanUnder(tbP, options);
      PendingUntilCommit(m, plan, tbP, s);
    }
  }

  /**
   * When the very first create fails on a failing path, the cleanup's delete
   * finds no table node and its KEY_DOES_NOT_EXIST replaces the backend
   * error, with the store untouched. The first create fails in no other way
   * once the guards have passed.
   */
  lemma CreateTableFirstFailureMasked(m: Store, failing: Faults, n: nat, dbName: string, tableName: string,
                                      options: map<string, string>)
    requires DbPath(dbName) in m && TablePath(dbName, tableName) !in m
    ensures var tbP := TablePath(dbName, tableName);
      && (TableStop(m, failing, tbP, options) == 0 <==> tbP in failing.writes)
      && (tbP in failing.writes ==>
            && OpFailure(Created(tbP, "PENDING"), failing, m) == Some(BackendFailure(tbP))
            && OpFailure(Deleted(tbP), failing, m) == Some(KeyDoesNotExist(tbP))
            && CreateTableSpec(m, failing, n, dbName, tableName, options)
               == Effect(m, n, Fail(CssException(KeyDoesNotExist(tbP)))))
  {
    var tbP := TablePath(dbName, tableName);
    var plan := TablePlan(tbP, options);
    FirstStopStops(m, failing, plan, NoNeeds(|plan|), map[], 0);
    if tbP in failing.writes {
      TableRollbackFinds(m, failing, tbP, options, CssException(BackendFailure(tbP)));
    }
  }

  /** `createTable` keeps the store a tree, however it ends. */
  lemma CreateTableKeepsClosed(m: Store, failing: Faults, n: nat, dbName: string, tableName: string,
                               options: map<string, string>)
    requires AncestorClosed(m)
    ensures AncestorClosed(CreateTableSpec(m, failing, n, dbName, tableName, options).store)
  {
    var tbP := TablePath(dbName, tableName);
    if DbPath(dbName) in m && tbP !in m {
      var plan := TablePlan(tbP, options);
      var s := TableStop(m, failing, tbP, options);
      var mk := Trace(m, plan)[s];
      FirstStopStops(m, failing, plan, NoNeeds(|plan|), map[], 0);
      PrefixKeepsClosed(m, failing, plan, NoNeeds(|plan|), map[], s);
      if s < |plan| {
        TableRollbackFinds(m, failing, tbP, options, StepError(plan[s], None, map[], failing, mk).value);
      }
      DeletedKeepsClosed(mk, tbP);
    }
  }

  /**
   * Where `createTable` leaves the store: unchanged after a guard, the
   * plan's prefix, or after a failure the prefix rolled back with the error
   * re-raised, or the prefix left in place when the cleanup's delete fails.
   */
  lemma TableSpecCases(m: Store, failing: Faults, n: nat, dbName: string, tableName: string, options: map<string, string>)
    ensures var e := CreateTableSpec(m, failing, n, dbName, tableName, options);
      var tbP := TablePath(dbName, tableName);
      var plan := TablePlan(tbP, options);
      var s := TableStop(m, failing, tbP, options);
      var mk := ApplyAll(m, plan[..s]);
      && e.counter == n
      && (e.outcome.Pass? ==> DbPath(dbName) in m && tbP !in m && s == |plan| && e.store == mk)
      && (e.outcome.Fail? ==>
            || e.store == m
            || (&& tbP !in m && 1 <= s < |plan|
                && (tbP in failing.deletes ==> e.store == mk && e.outcome.error == CssException(BackendFailure(tbP)))
                && (tbP !in failing.deletes ==>
                      e.store == Apply(mk, Deleted(tbP)) && StepError(plan[s], None, map[], failing, mk) == Some(e.outcome.error))))
  {
    var tbP := TablePath(dbName, tableName);
    var plan := TablePlan(tbP, options);
    var s := TableStop(m, failing, tbP, options);
    FirstStopStops(m, failing, plan, NoNeeds(|plan|), map[], 0);
    TraceApplyAll(m, plan, s);
    if DbPath(dbName) in m && tbP !in m && s < |plan| {
      TableRollbackFinds(m, failing, tbP, options, StepError(plan[s], None, map[], failing, Trace(m, plan)[s]).value);
    }
  }

  /**
   * A `createTable` leaves every key with its value. One that fails and
   * whose cleanup completes adds no key but parents of the table node; when
   * the cleanup's delete fails, the table node stays PENDING with what was
   * written below it, and the delete's error escapes. One that succeeds
   * leaves the table READY with every catalogued option the caller gave
   * stored under its key, and adds exactly the table node, its missing
   * parents, those keys and the section nodes above them.
   */
  lemma CreateTableOutcome(m: Store, failing: Faults, n: nat, dbName: string, tableName: string,
                           options: map<string, string>)
    requires AncestorClosed(m)
    ensures var e := CreateTableSpec(m, failing, n, dbName, tableName, options);
      var tbP := TablePath(dbName, tableName);
      && e.counter == n
      && (forall k :: k in m ==> k in e.store && e.store[k] == m[k])
      && (forall k :: k in e.store ==> k in m || k in Ancestors(tbP) || (e.outcome.Pass? && InSubtree(k, tbP))
                                       || (tbP in failing.deletes && InSubtree(k, tbP)))
      && (e.outcome.Fail? ==>
            || (forall k :: k in e.store ==> k in m || k in Ancestors(tbP))
            || (e.outcome.error == CssException(BackendFailure(tbP)) && tbP in e.store && e.store[tbP] == "PENDING"))
      && (e.outcome.Pass? ==>
            && DbPath(dbName) in m && tbP !in m && tbP in e.store && e.store[tbP] == "READY"
            && e.store.Keys == m.Keys + Ancestors(tbP) + {tbP} + OptionKeysAdded(tbP, options, TableOptions)
            && forall o :: o in TableOptions && o.name in options ==>
                 OptionKey(tbP, o) in e.store && e.store[OptionKey(tbP, o)] == options[o.name])
  {
    var tbP := TablePath(dbName, tableName);
    var plan := TablePlan(tbP, options);
    var s := TableStop(m, failing, tbP, options);
    TableSpecCases(m, failing, n, dbName, tableName, options);
    TablePlanUnder(tbP, options);
    if tbP !in m && 1 <= s < |plan| {
      RollbackRestores(m, plan, tbP, s);
      PendingUntilCommit(m, plan, tbP, s);
      PlanPrefixKeys(m, plan, tbP, s);
      AbsentRootEmptySubtree(m, tbP);
      assert AllUnder(plan[..s], tbP, tbP) && NoDeletes(plan[..s]);
      WritesUnder(m, plan[..s], tbP, tbP);
    }
    if DbPath(dbName) in m && tbP !in m && s == |plan| {
      assert plan[..s] == plan;
      TableCommitValues(m, tbP, options);
      PlanPrefixKeys(m, plan, tbP, s);
    }
  }

  /** Options outside the catalogue change nothing `createTable` does. */
  lemma CreateTableIgnoresOtherOptions(m: Store, failing: Faults, n: nat, dbName: string, tableName: string,
                                       o1: map<string, string>, o2: map<string, string>)
    requires forall o :: o in TableOptions ==> (o.name in o1 <==> o.name in o2) && (o.name in o1 ==> o1[o.name] == o2[o.name])
    ensures CreateTableSpec(m, failing, n, dbName, tableName, o1) == CreateTableSpec(m, failing, n, dbName, tableName, o2)
  {
    OptionOpsOnlyCatalogued(TablePath(dbName, tableName), o1, o2, TableOptions);
  }

  /** The step of the plan that entry `i` of the catalogue writes, when the caller gave it. */
  lemma OptionStep(tbP: string, options: map<string, string>, cat: seq<TableOption>, plan: seq<Mutation>, i: nat, k: nat)
    requires plan == [Created(tbP, "PENDING")] + OptionOps(tbP, options, cat) + [SetTo(tbP, "READY")]
    requires i < |cat| && k == 1 + |OptionOps(tbP, options, cat[..i])|
    ensures cat[i].name in options ==> && k + 1 == 1 + |OptionOps(tbP, options, cat[..i + 1])| && k < |plan| - 1
                                       && plan[k] == Created(OptionKey(tbP, cat[i]), options[cat[i].name])
    ensures cat[i].name !in options ==> k == 1 + |OptionOps(tbP, options, cat[..i + 1])|
  {
    OptionOpsPrefix(tbP, options, cat, i + 1);
    assert cat[..i + 1][..i] == cat[..i];
    if cat[i].name in options {
      assert plan[k] == OptionOps(tbP, options, cat[..i + 1])[k - 1];
    }
  }

  /** After the whole catalogue, the next step is the set to READY, the last of the plan. */
  lemma CommitStep(tbP: string, options: map<string, string>, cat: seq<TableOption>, plan: seq<Mutation>, k: nat)
    requires plan == [Created(tbP, "PENDING")] + OptionOps(tbP, options, cat) + [SetTo(tbP, "READY")]
    requires k == 1 + |OptionOps(tbP, options, cat[..|cat|])|
    ensures k == |plan| - 1 && plan[k] == SetTo(tbP, "READY")
  {
    assert cat[..|cat|] == cat;
  }
}
