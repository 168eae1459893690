# Qserv metadata and query bookkeeping, modelled in Dafny

Qserv is a distributed SQL database. Its metadata lives in the Central State
System (CSS), a hierarchical key-value store (ZooKeeper, or an in-memory map)
whose keys are slash-separated paths. This project models four parts of the
system that work on that metadata and on the bookkeeping around queries:

- **The administration client** (`QservAdminImpl`). `createDb`, `createDbLike`,
  `dropDb` and `createTable` write and remove database and table entries, each
  as an ordered sequence of store operations. A failure rolls the sequence back
  by a recursive delete. The model is a class over a store object (`KvStore.Css`)
  whose fields are the store, the backend's sequence counter and the calls the
  backend fails. Each operation is proved equal
  to a specification function (`CreateDbSpec`, `CreateDbLikeSpec`, `DropDbSpec`,
  `CreateTableSpec`). The properties the client promises are proved about those
  functions:
  - what a successful call leaves in the store;
  - that a failed call leaves every existing key as it was, and adds nothing
    but parents of the new nodes, unless a cleanup delete itself fails and
    leaves the PENDING node behind;
  - which error is raised.
- **The CSS facade** (`css::Facade`). These are read-only queries:
  - whether a database or table exists, with existence checked in a fixed order;
  - a table's chunking level, key column and partitioning columns;
  - a database's striping parameters;
  - the lists of chunked and subchunked tables.

  Single reads are functions of the store. The reads that loop over a table list
  are methods proved against those functions. A separate module reads back what
  the administration client wrote. It shows that the facade finds, in the stored
  catalogue, the values that `createDb`, `createDbLike` and `createTable` were
  given.
- **The czar** (`czar::Czar`), the front end that accepts user queries. The model
  covers four things:
  - parsing of `KILL` statements;
  - the id counter that names message tables;
  - the registry from (client, thread id) to running query, which `submitQuery`
    purges and extends;
  - `killQuery`, which looks a query up in that registry.
- **The master dispatcher**. The model covers:
  - the names of query states;
  - the per-stage error description of a session (`getErrorDesc` and its
    `_ErrMsgStr_` buckets);
  - the success merge of `joinSession` (`mergeStatus`), including which failed
    chunks it reports.

The store is `map<string, string>`. A store operation is a `Mutation`:
- create, which also makes the missing ancestors, as kazoo's `makepath` does;
- set;
- recursive delete;
- copy.

Backend failures come from two sets of failing paths (`Faults`) that are fixed
before a call: a create or set of a path in the first set fails with a backend
error, a recursive delete of a path in the second set fails likewise, and a read
fails only on a missing key. Since the two sets are independent, a node the
client has just created can still refuse its cleanup delete. Sequential nodes take the name
`/DATABASE_PARTITIONING/_` followed by the backend's counter, zero-padded to ten
digits.

## Model

| member | source | states |
|---|---|---|
| KvStore.Css.Create | client/qserv_admin_impl.py:71-80 | create fails with KEY_EXISTS on an existing key or with a backend error on a failing path, leaving the store unchanged; otherwise it adds the key, the missing ancestors (empty values) and the value |
| KvStore.Css.CreateSequential | client/qserv_admin_impl.py:72 | a sequential create names the node with the zero-padded counter, increments the counter only on success, and fails like `create` |
| KvStore.Css.Set | client/qserv_admin_impl.py:82 | set fails with KEY_DOES_NOT_EXIST on a missing key and otherwise replaces only that value |
| KvStore.Css.Delete | client/qserv_admin_impl.py:86-87 | a recursive delete fails with KEY_DOES_NOT_EXIST on a missing key, or with a backend error when the backend fails deletes of that path, leaving the store unchanged; otherwise it removes exactly the key's subtree |
| KvStore.ListChildren | core/modules/css/Facade.cc:179 | getChildren fails with KEY_DOES_NOT_EXIST on a missing node; otherwise it lists each direct child name once, in no promised order |
| KvStore.CreatedKeepsClosed | client/qserv_admin_impl.py:71 | a create keeps the store a tree: every key's ancestors are present |
| KvStore.DeletedKeepsClosed | client/qserv_admin_impl.py:86 | a recursive delete keeps the store a tree |
| KvStore.ApplyKeepsClosed | client/qserv_admin_impl.py:170-180 | every store operation the client issues keeps the store a tree |
| KvStore.CreatedEffect | client/qserv_admin_impl.py:71 | after a create the keys are the old keys plus the path and its ancestors; the path holds the value and every other old key is unchanged |
| KvStore.DeletedEffect | client/qserv_admin_impl.py:86 | after a recursive delete the keys are exactly the old keys outside the subtree, with their values unchanged |
| KvStore.ChildOpsValues | client/qserv_admin_impl.py:241-246 | creating a list of distinct child names gives each child its value and leaves every other key unchanged |
| KvStore.WritesUnder | client/qserv_admin_impl.py:71-82 | a sequence of creates and sets below two roots keeps all old keys, adds only keys in or above those roots, and changes no value outside them |
| AdminPlan.CataloguesApart | client/qserv_admin_impl.py:68-72 | no key lies both under /DATABASES and under /DATABASE_PARTITIONING |
| AdminPlan.DbPartitionApart | client/qserv_admin_impl.py:68-72 | a database's subtree and ancestors never meet a partitioning node's subtree or ancestors |
| AdminPlan.PartitioningIdIsSequenceNumber | client/qserv_admin_impl.py:77-78 | the last ten characters of a sequential partitioning path are the padded counter, whose decimal value is the counter |
| AdminPlan.PartitioningIdsDistinct | client/qserv_admin_impl.py:72-78 | different counters give different partitioning paths and different partitioning ids |
| AdminPlan.FirstStopStops | client/qserv_admin_impl.py:70-82 | the first failing step of a plan is well defined: every earlier step succeeds and that step fails, or the whole plan succeeds |
| AdminPlan.StopsAtUnique | client/qserv_admin_impl.py:70-82 | a plan has only one first failing step |
| AdminPlan.PrefixKeepsClosed | client/qserv_admin_impl.py:70-82 | the steps of a plan that succeed keep the store a tree |
| AdminPlan.PendingUntilCommit | client/qserv_admin_impl.py:71-82 | until the final set, the entry created first still reads PENDING |
| AdminPlan.RollbackRestores | client/qserv_admin_impl.py:113-117 | deleting the created root after any prefix of a plan that writes only below it restores every old key and value; only ancestors of the root remain added |
| CreateDbPlan.DbPendingUntilCommit | client/qserv_admin_impl.py:71-82 | during createDb the database entry reads PENDING after every step before the last |
| CreateDbPlan.DbRollbackRestores | client/qserv_admin_impl.py:83-88 | createDb's rollback after a failure at any step restores every old key and value and adds only ancestors of the two roots |
| CreateDbPlan.DbCommitValues | client/qserv_admin_impl.py:71-82 | after the whole createDb sequence the database reads READY and carries dbGroup, the padded partitioningId, UNRELEASED and objIdIndex; the partitioning node carries nStripes, nSubStripes and overlap; the six LOCK fields are empty |
| CreateDbPlan.DbRollbackFinds | client/qserv_admin_impl.py:83-88 | the cleanup finds the database node once its create succeeded and the partitioning node once allocated; each delete succeeds exactly when the backend does not fail deletes of its path; the first one that fails raises its own error and leaves the store as it stands, otherwise the handled error is re-raised; when the first create failed, the database node is absent and its delete raises KEY_DOES_NOT_EXIST |
| CreateDbPlan.CreateDbLeavesPending | client/qserv_admin_impl.py:70-88 | when the backend accepts the database node, refuses the partitioning node and refuses the cleanup delete, createDb raises the delete's backend error and the database node stays behind, PENDING, with the counter unchanged |
| CreateDbPlan.CreateDbFirstFailureMasked | client/qserv_admin_impl.py:70-88 | the first create fails exactly on a failing database path; its backend error is then replaced by the KEY_DOES_NOT_EXIST of the rollback delete, with store and counter untouched |
| CreateDbPlan.CreateDbKeepsClosed | client/qserv_admin_impl.py:56-89 | createDb keeps the store a tree, whichever way it ends |
| CreateDbPlan.CreateDbGuard | client/qserv_admin_impl.py:64-88 | createDb raises DbExists exactly when the database node is there, and then leaves the store and the counter unchanged; every other error it raises is a store error or a missing option |
| CreateDbPlan.CreateDbPassHadOptions | client/qserv_admin_impl.py:73-80 | a successful createDb was given nStripes, nSubStripes, overlap, dbGroup and objectIdIndex |
| CreateDbPlan.DbSpecCases | client/qserv_admin_impl.py:65-88 | createDb either succeeds with the full sequence applied, escapes a missing option after step 2 without cleanup, or fails on a store error with the store untouched, or with the cleanup applied up to its first failing delete: the database node PENDING with the delete's error, the partitioning node alone with its delete's error, or both removed with the step's own error |
| CreateDbPlan.CreateDbOutcome | client/qserv_admin_impl.py:56-89 | createDb keeps every old key and value; a store error whose cleanup deletes both succeed adds at most ancestors, otherwise the PENDING database or the partitioning node is left with the failed delete's error; a missing option leaves the PENDING entry behind; success leaves READY and the partitioning id; the counter advances by at most one |
| CreateDbLikePlan.LikeCommitValues | client/qserv_admin_impl.py:105-112 | after the whole createDbLike sequence the keys are the old keys plus the new database, its four copied fields and its LOCK section; the copied fields equal the template's, and the database reads READY |
| CreateDbLikePlan.CreateDbLikeGuards | client/qserv_admin_impl.py:99-117 | createDbLike raises DbExists exactly when the new database node is there, and DbDoesNotExist of the template exactly when the new one is absent and the template is too; both leave the store unchanged; every other error it raises is a store error |
| CreateDbLikePlan.LikeSpecCases | client/qserv_admin_impl.py:99-117 | createDbLike never touches the counter; it either succeeds with the full sequence applied, or fails with the store untouched, with the new database deleted again and the step's error, or, when the backend fails that delete, with the written prefix left in place and the delete's error |
| CreateDbLikePlan.CreateDbLikeOutcome | client/qserv_admin_impl.py:91-117 | a failed createDbLike keeps every old key and value and adds at most ancestors, unless the cleanup delete fails, which raises that error and leaves the new database PENDING; a successful one leaves the new database READY with the template's four fields |
| CreateDbLikePlan.LikeRollbackFinds | client/qserv_admin_impl.py:113-117 | the cleanup delete finds the new database node, PENDING, exactly when its create succeeded; it then fails exactly when the backend fails deletes of that path, raising its own error over the handled one and leaving the node |
| CreateDbLikePlan.CreateDbLikeFirstFailureMasked | client/qserv_admin_impl.py:105-117 | the first create fails exactly on a failing database path; its backend error is then replaced by the KEY_DOES_NOT_EXIST of the rollback delete, with the store untouched |
| CreateDbLikePlan.CreateDbLikeKeepsClosed | client/qserv_admin_impl.py:91-117 | createDbLike keeps the store a tree, whichever way it ends |
| CreateDbLikePlan.LikeCompleteReadsTemplate | client/qserv_admin_impl.py:221-233 | when every copy succeeds, the template had all four fields and the copies hold their values |
| CreateDbLikePlan.CopyOpsAsCreates | client/qserv_admin_impl.py:229-233 | copying fields from another database is the same as creating them with the values read first |
| DropDbPlan.DropDbRemovesSubtree | client/qserv_admin_impl.py:119-129 | dropDb fails with DB_DOES_NOT_EXIST when the database is missing and with the delete's backend error when the backend fails deletes of its path, then leaving the store unchanged; otherwise it removes exactly the database's subtree |
| DropDbPlan.DropDbKeepsClosed | client/qserv_admin_impl.py:129 | dropDb keeps the store a tree |
| DropDbPlan.DropDbKeepsPartitionings | client/qserv_admin_impl.py:129 | dropDb leaves every partitioning node untouched |
| DropDbPlan.DropAfterCreateLeavesPartitioning | client/qserv_admin_impl.py:120-129 | dropping a database just created succeeds exactly when the backend lets its delete through, and then removes it; either way its partitioning node stays behind, so the store differs from where it started |
| CreateTablePlan.CatalogueWellFormed | client/qserv_admin_impl.py:149-160 | the eleven catalogued option names are distinct and each section is empty or starts with a '/' |
| CreateTablePlan.OptionOpsValues | client/qserv_admin_impl.py:173-179 | each catalogued option present in the options is stored at its section path with its value |
| CreateTablePlan.TableCommitValues | client/qserv_admin_impl.py:170-180 | after the whole createTable sequence the table reads READY, every given catalogued option is stored, every old key is unchanged, and the keys are exactly the old ones, the table node and its missing parents, the given options' keys and their section nodes |
| CreateTablePlan.TableOmitsAbsentOptions | client/qserv_admin_impl.py:170-180 | after the whole createTable sequence, a catalogued option that was not given has no key, unless its key is the section node of a given option (isRefMatch under /isRefMatch) |
| CreateTablePlan.TableRollbackFinds | client/qserv_admin_impl.py:181-185 | the cleanup delete finds the table node, PENDING, exactly when its create succeeded; it then fails exactly when the backend fails deletes of that path, raising its own error over the handled one and leaving the node |
| CreateTablePlan.CreateTableFirstFailureMasked | client/qserv_admin_impl.py:170-185 | the first create fails exactly on a failing table path; its backend error is then replaced by the KEY_DOES_NOT_EXIST of the rollback delete, with the store untouched |
| CreateTablePlan.CreateTableKeepsClosed | client/qserv_admin_impl.py:141-186 | createTable keeps the store a tree, whichever way it ends |
| CreateTablePlan.CreateTableGuards | client/qserv_admin_impl.py:164-185 | createTable raises DbDoesNotExist exactly when the database node is absent, and TbExists of "db.table" exactly when the database is there and so is the table node; both leave the store unchanged; every other error it raises is a store error |
| CreateTablePlan.TableSpecCases | client/qserv_admin_impl.py:164-185 | createTable either succeeds with the full sequence applied, or fails with the store untouched, with the table deleted again and the step's error, or, when the backend fails that delete, with the written prefix left in place and the delete's error |
| CreateTablePlan.CreateTableOutcome | client/qserv_admin_impl.py:141-186 | createTable keeps every old key and value; it adds keys only above the table, or in the table when it succeeds or its cleanup delete fails; a failure adds at most ancestors unless that delete fails, leaving the table PENDING with the delete's error; on success the database existed, the table did not, the table is READY with every given catalogued option, and the keys added are exactly the table node, its missing parents, the given options' keys and their section nodes |
| CreateTablePlan.CreateTableIgnoresOtherOptions | client/qserv_admin_impl.py:173-179 | options outside the catalogue have no effect on createTable |
| QservAdmin.QservAdminImpl.DbExists | client/qserv_admin_impl.py:202-209 | _dbExists holds exactly when the database key is present; when it is absent, nothing in its subtree is present |
| QservAdmin.QservAdminImpl.TableExists | client/qserv_admin_impl.py:211-219 | _tableExists holds exactly when the table key is present; when it is absent, nothing in its subtree is present |
| QservAdmin.QservAdminImpl.CreateDb | client/qserv_admin_impl.py:56-89 | the new store, counter and outcome are those of the createDb specification, including a cleanup delete that fails and raises its own error, and the store stays a tree |
| QservAdmin.QservAdminImpl.CreateDbLockSection | client/qserv_admin_impl.py:235-246 | the six LOCK creates run in order and stop at the first failure, with that failure's error |
| QservAdmin.QservAdminImpl.CopyKeyValue | client/qserv_admin_impl.py:221-233 | each field is read from the template and created in the new database, in order, stopping at the first failing read or create |
| QservAdmin.QservAdminImpl.CreateDbLike | client/qserv_admin_impl.py:91-117 | the new store, counter and outcome are those of the createDbLike specification, including a cleanup delete that fails and raises its own error, and the store stays a tree |
| QservAdmin.QservAdminImpl.DropDb | client/qserv_admin_impl.py:119-129 | the new store, counter and outcome are those of the dropDb specification, and the store stays a tree |
| QservAdmin.QservAdminImpl.CreateTable | client/qserv_admin_impl.py:141-186 | the new store, counter and outcome are those of the createTable specification, including a cleanup delete that fails and raises its own error, and the store stays a tree |
| QservAdmin.QservAdminImpl.CreateTableOptions | client/qserv_admin_impl.py:173-179 | the option loop creates exactly the catalogued options present, in catalogue order, stopping at the first failure |
| Decimal.NatToStringValue | client/qserv_admin_impl.py:78 | the decimal text of a number reads back as that number |
| Decimal.Pad10Value | client/qserv_admin_impl.py:77 | the zero-padded sequence suffix reads back as the counter |
| Decimal.Pad10Injective | client/qserv_admin_impl.py:72 | different counters give different padded suffixes |
| Decimal.LexicalCastSignedDigits | core/modules/css/Facade.cc:312 | an optional '+' or '-' followed by one or more digits, leading zeros allowed, is accepted exactly when its value fits a 32-bit int, and casts to that value |
| Decimal.LexicalCastAcceptedForm | core/modules/css/Facade.cc:312 | every accepted text is an optional sign followed by digits only, and casts to the value they denote |
| Decimal.LexicalCastExamples | core/modules/css/Facade.cc:312 | "+7" and "007" cast to 7 and "-12" to -12; "", "+" and "7a" are refused |
| Decimal.IntToStringRoundTrip | core/modules/czar/Czar.cc:251 | every 32-bit int, written in decimal, is cast back to itself |
| Decimal.LexicalCastRejectsSpace | core/modules/czar/Czar.cc:251 | a text containing a space is never accepted |
| CssFacade.CheckOrder | core/modules/css/Facade.cc:120-126 | the table checks raise DB_DOES_NOT_EXIST for a missing database first, then TB_DOES_NOT_EXIST naming "db.table"; containsTable raises only for the database |
| CssFacade.TableFlagsCases | core/modules/css/Facade.cc:136-156 | tableIsChunked answers whether the partitioning node exists; tableIsSubChunked whether subChunks is "1", raising when it is missing; in a tree, subchunked implies chunked |
| CssFacade.ChunkLevelCases | core/modules/css/Facade.cc:249-264 | getChunkLevel as written: after the checks it raises exactly when subChunks is missing, answers 2 exactly when subChunks is "1", 1 when the table has a partitioning node, and 0 otherwise |
| CssFacade.ChunkLevelNeverZero | core/modules/css/Facade.cc:249-264 | in a store that is a tree, getChunkLevel as written never answers 0 |
| CssFacade.UnpartitionedTableRaises | core/modules/css/Facade.cc:385-395 | for an existing table without a partitioning node the written code raises KEY_DOES_NOT_EXIST on subChunks, and the corrected code answers 0 |
| CssFacade.ChunkLevelIntendedCases | core/modules/css/Facade.cc:241-264 | the corrected chunk level never raises once the table exists: 0 exactly without a partitioning node, 2 exactly when subChunks is "1", 1 otherwise; it agrees with the written code wherever that answers |
| CssFacade.KeyColumnRethrows | core/modules/css/Facade.cc:275-291 | getKeyColumn re-raises KEY_DOES_NOT_EXIST for a missing secIndexColName; an answer is the stored value |
| CssFacade.DbStripingCases | core/modules/css/Facade.cc:299-313 | getDbStriping raises for a missing database or partitioning id; an answer holds the two counts cast from the partitioning node that the id names |
| CssFacade.ChunkedAmongFilters | core/modules/css/Facade.cc:181-186 | the chunked tables are, in listing order, exactly the listed tables that have a partitioning node |
| CssFacade.SubChunkedAmongFails | core/modules/css/Facade.cc:203-208 | collecting subchunked tables raises exactly when some listed table has no subChunks, with that key in the error |
| CssFacade.SubChunkedAmongFilters | core/modules/css/Facade.cc:203-208 | when every listed table has subChunks, the result is, in listing order, exactly those tables whose subChunks is "1" |
| CssFacade.ReadAllValues | core/modules/css/Facade.cc:231-235 | reading a list of keys succeeds exactly when all are present, giving their values in order; otherwise the error names a missing key |
| CssFacade.PartitionColsValues | core/modules/css/Facade.cc:219-239 | getPartitionCols answers the lonColName, latColName and secIndexColName values, in that order |
| CssFacade.GetChunkedTables | core/modules/css/Facade.cc:174-188 | raises DB_DOES_NOT_EXIST for a missing database and KEY_DOES_NOT_EXIST for a missing TABLES node; otherwise the result is the chunked-table filter over the listed children |
| CssFacade.GetSubChunkedTables | core/modules/css/Facade.cc:196-210 | as GetChunkedTables, with the subchunked-table filter, including the error of the first table without subChunks |
| CssFacade.GetPartitionCols | core/modules/css/Facade.cc:219-239 | the loop's result is the partition-columns read |
| CatalogueReadback.StripingAfterCreateDb | client/qserv_admin_impl.py:72-78 | after a successful createDb both options were given, the facade finds the database, and its striping is the int cast of the nStripes and nSubStripes options, or the cast error |
| CatalogueReadback.StripingSharedByLike | client/qserv_admin_impl.py:106-112 | after a successful createDbLike the new database reads the same striping as its template |
| CatalogueReadback.DropDbHidesDatabase | client/qserv_admin_impl.py:119-129 | dropDb succeeds exactly when the facade finds the database and the backend does not fail its delete; afterwards the facade no longer finds it, and a failed drop changes nothing the facade sees |
| CatalogueReadback.TableAfterCreateTable | client/qserv_admin_impl.py:170-180 | after a successful createTable the facade's checks pass, the table is found, and the key column, partition columns and chunk level read back the given options |
| CatalogueReadback.UnpartitionedCreateRaises | core/modules/css/Facade.cc:249-264 | a table created with no catalogued options makes the written getChunkLevel raise KEY_DOES_NOT_EXIST, while the corrected one answers 0 |
| CzarService.StripTrailingSpacesMeaning | core/modules/czar/Czar.cc:239-241 | stripping removes exactly a trailing run of spaces and keeps the rest |
| CzarService.ParseKillQueryMeaning | core/modules/czar/Czar.cc:235-260 | a statement without a KILL prefix parses to -1; the prefixes are tried in the order QUERY, CONNECTION, plain; a result other than -1 is a 32-bit int cast from the text after a matched prefix |
| CzarService.ParseKillQueryRoundTrip | core/modules/czar/Czar.cc:235-260 | each KILL form followed by a thread id and trailing spaces parses back to that id |
| CzarService.PurgedMeaning | core/modules/czar/Czar.cc:160-167 | the purge keeps exactly the entries whose query is still alive, unchanged, and is idempotent |
| CzarService.RegisterMeaning | core/modules/czar/Czar.cc:169-175 | registering never overwrites and adds only its own key, which is present afterwards exactly if it was already there or the client id is non-empty and the thread id non-negative |
| CzarService.MessageTablesDistinct | core/modules/czar/Czar.cc:104-107 | different counter values name different message tables |
| CzarService.KillReplyMeaning | core/modules/czar/Czar.cc:191-229 | killQuery answers the empty string exactly when the statement parses and the (client, thread) pair is registered; a parse failure answers "Failed to parse query: "; a kill happens only with an empty answer |
| CzarService.KillAfterSubmit | core/modules/czar/Czar.cc:160-229 | after a submission registers a live query, killing it by its thread id succeeds and targets the registered query |
| CzarService.SubmitReplyMeaning | core/modules/czar/Czar.cc:109-188 | a submission names its message table exactly when the lock and the query both succeed; the table is named from the counter; a lock failure's message is returned |
| CzarService.Czar.constructor | core/modules/czar/Czar.cc:56-64 | the counter starts at the milliseconds since the epoch, modulo one year; the registry starts empty |
| CzarService.Czar.PurgeExpired | core/modules/czar/Czar.cc:160-167 | the registry loop leaves exactly the purged registry |
| CzarService.Czar.SubmitQuery | core/modules/czar/Czar.cc:81-189 | the counter advances by one before anything can fail; on a lock or query error the registry is unchanged; otherwise it is purged and the query registered; the reply is the submission reply |
| CzarService.Czar.KillQuery | core/modules/czar/Czar.cc:191-229 | the reply and the query killed are those of the kill specification over the current registry |
| Dispatcher.StateNameRoundTrip | master/src/dispatcher.cc:233-254 | each listed state's name maps back to the state; an unlisted value reads as "unknown" |
| Dispatcher.BucketSizes | master/src/dispatcher.cc:286-296 | the four error buckets and the chunks that failed no stage hold one entry per result: their sizes add up to the number of results |
| Dispatcher.BucketMembership | master/src/dispatcher.cc:286-296 | every chunk lands in the bucket of its first failing stage |
| Dispatcher.ChunksInFrom | master/src/dispatcher.cc:286-296 | every chunk id in a bucket comes from a result whose first failing stage is that bucket |
| Dispatcher.BucketTextEmpty | master/src/dispatcher.cc:263-271 | a bucket's text is empty exactly when no chunk was added to it |
| Dispatcher.ErrorDescMeaning | master/src/dispatcher.cc:297-306 | with an open, queryWrite or read failure the description is those three buckets; otherwise it is the localWrite bucket alone |
| Dispatcher.ErrorDescEmpty | master/src/dispatcher.cc:256-308 | the description is empty exactly when no chunk failed a stage |
| Dispatcher.ErrMsgStr.Add | master/src/dispatcher.cc:263-268 | adding a chunk id appends it, and the text is the header followed by every id added |
| Dispatcher.AddToBucket | master/src/dispatcher.cc:287-295 | a result goes to exactly one bucket, that of its first failing stage, or to none |
| Dispatcher.CollectBuckets | master/src/dispatcher.cc:286-296 | the loop over the results leaves each of the four buckets holding, in order, exactly the chunks whose first failing stage is its own |
| Dispatcher.GetErrorDesc | master/src/dispatcher.cc:256-308 | the loop and the output produce the error description of the results |
| Dispatcher.FailuresEmpty | master/src/dispatcher.cc:170-179 | there are no failed chunks exactly when every result is successful |
| Dispatcher.MergeStatus.constructor | master/src/dispatcher.cc:163-168 | the merge starts successful, with no chunk reported |
| Dispatcher.MergeStatus.Merge | master/src/dispatcher.cc:169-186 | success stays only while results succeed; a failed chunk is reported, and the budget decreases, exactly when printing is on or budget remains |
| Dispatcher.JoinSession | master/src/dispatcher.cc:217-231 | the session is SUCCESS exactly when every result succeeded and ERROR otherwise; the chunks reported are the first five failures |

## Left out

- Logging, in every component, is left out.
- The ZooKeeper and in-memory backends, their connection setup, the `Facade`
  constructors and `FacadeFactory` are not modelled. The store is a map. Backend
  failures are two fixed sets of failing paths, one for creates and sets and
  one for recursive deletes; reads never fail for a present key.
- KvStore.Css.Delete: a recursive delete fails with a backend error only when its
  root is in the set of failing deletes. A failing path below the root does not make it fail,
  although the backend removes the children one call at a time. A missing root is
  reported before a failing one.
- Concurrency is left out: another client writing between `_dbExists` and
  `create`, and the czar's mutexes. Every operation runs alone.
- `showDatabases`, `dumpEverything` and `dropEverything` are left out. They
  print to stdout, dump the store or delete everything.
- `getAllowedDbs` is a plain `getChildren` of `/DATABASES`. It has no row of its
  own; its behaviour is `KvStore.ListChildren`.
- The order of `getChildren` is left open. `GetChunkedTables` and
  `GetSubChunkedTables` state their result for the order returned, a ghost
  out-parameter whose members are exactly the child names.
- A missing option in `createDb` is modelled as an escaping `KeyError`. It
  raises a Python `KeyError` that escapes the `except CssException` clause, so
  there is no rollback.
- CreateDbPlan.CreateDbOutcome: requires the partitioning node that the
  backend counter names to be absent. ZooKeeper's sequential counter always
  runs ahead of the sequential children it has made. The model's store also
  allows a plain create of such a path, so this is not an invariant of `Css`.
- CreateDbLikePlan.CreateDbLikeOutcome: the success clause assumes the new
  database name contains no '/'. A name with a slash can put the new database
  node below the template, as `T/dbGroup/x` does for template `T`. The first
  create then adds a missing template attribute (`T/dbGroup`) as an empty parent
  node. The copy reads that empty value instead of failing, so the copied fields
  need not be values the template held.
- CreateDbLikePlan.LikeCompleteReadsTemplate: requires a new name without '/',
  for the same reason: with a slash, a copy can read a template attribute that
  the first create added.
- CatalogueReadback.StripingSharedByLike: requires a new name without '/', for
  the same reason: with a slash, the copied partitioning id can be an empty
  value the first create added, rather than the template's.
- The readback lemmas use a facade with an empty prefix. The administration
  client writes without one.
- AdminPlan.PartitioningIdIsSequenceNumber: requires the sequence counter below
  10^10. The backend's sequence counter is a signed 32-bit int, so it never
  reaches that bound. Above it, `Pad10` is longer than ten characters, and the
  model promises no ten-digit id.
- AdminPlan.PartitioningIdsDistinct: requires both counters below 10^10, for the
  same reason.
- CatalogueReadback.StripingAfterCreateDb: requires the sequence counter below
  10^10, for the same reason: createDb stores the last ten characters of the
  partitioning node's name as its id.
- CzarService.Czar.SubmitQuery: `_idCounter` is `uint64_t` and is modelled as
  an unbounded `nat`. The wrap-around after 2^64 submissions is not modelled.
- `ConfigStore` is not part of this model. A hint is read as its value when
  present; an integer hint that is absent or not a number reads as the default.
- Several of `submitQuery`'s collaborators become parameters:
  - The `UserQueryFactory`, the `UserQuery` object and its error become a
    `NewQuery` value.
  - Locking the message table becomes an optional error message.
  - Query liveness (`weak_ptr::expired`/`lock`) becomes a set of live query ids.
  - A query is identified by its id.
- The finalizer thread of `submitQuery`, and the `submit`, `join`, `unlock` and
  `discard` calls it makes, are left out. Killing a query is reported as the id
  of the query killed.
- The dispatcher's `AsyncQueryManager` and its sessions are not modelled. The
  final-state deque is a sequence of results.
- `XrdTransResult::isSuccessful()` is not part of this model. It is a field of
  each result.
- The chunk lines printed by `mergeStatus` are modelled only as the list of
  failed chunk ids reported. The "OK" lines printed under `shouldPrint` are left
  out.
- The other session functions of the dispatcher are left out: `submitQuery`,
  `joinQuery`, `tryJoinQuery`, `newSession` and the rest.
- A `QueryState` outside the enumeration is modelled as `Unlisted`.

## Findings

| source | as written | input that shows it | evidently intended | confidence | as-written member | corrected member |
|---|---|---|---|---|---|---|
| core/modules/css/Facade.cc:249-264 | `getChunkLevel` always calls `_tableIsSubChunked` (lines 385-395), which reads `partitioning/subChunks` with `get` and raises KEY_DOES_NOT_EXIST when that key is missing | a table created by `createTable` with none of the catalogued options: it has no `partitioning` node, so `getChunkLevel` raises instead of answering | answer 0 for a table without partitioning, as the function's documentation says (line 246), and test `subChunks` only for a chunked table | not executed | CatalogueReadback.UnpartitionedCreateRaises | CssFacade.ChunkLevelIntendedCases |
