/**
 * The hierarchical key-value store that holds the metadata (a ZooKeeper-like
 * coordination service), reduced to a map from absolute paths to values.
 *
 * `create` brings missing ancestors into existence with an empty value (the
 * admin code creates `<db>/LOCK/comments` and `<table>/partitioning/<field>`
 * without creating their parents); a recursive `delete` removes a path and
 * everything below it; a sequential `create` appends a ten-digit, zero-padded
 * counter to the requested name. Each successful call is one `Mutation`, so a
 * sequence of calls is a sequence of mutations and its effect is `ApplyAll`.
 */
module KvStore {
  import opened Results
  import opened Decimal

  type Store = map<string, string>

  /** The error kinds carried by a `CssException`. */
  datatype CssError =
    | DbExists(name: string)
    | DbDoesNotExist(name: string)
    | TbExists(name: string)
    | TbDoesNotExist(name: string)
    | KeyExists(key: string)
    | KeyDoesNotExist(key: string)
    | BackendFailure(key: string)

  /** One successful single-key mutation of the store. */
  datatype Mutation =
    | Created(path: string, value: string)
    | SetTo(path: string, value: string)
    | Deleted(path: string)
      /** A `get` of `source` whose value is then created at `path`. */
    | Copied(path: string, source: string)

  /** The proper ancestors of a path: each prefix that ends just before a '/' (the root excluded). */
  function Ancestors(p: string): set<string>
  {
    set i | 0 < i < |p| && p[i] == '/' :: p[..i]
  }

  /** `k` is `p` itself or lies below `p + "/"`. */
  predicate InSubtree(k: string, p: string)
  {
    k == p || (|k| > |p| && k[..|p|] == p && k[|p|] == '/')
  }

  /** `k` names a direct child of `p`. */
  predicate IsChildPath(p: string, k: string)
  {
    |k| > |p| + 1 && k[..|p|] == p && k[|p|] == '/' && '/' !in k[|p| + 1..]
  }

  /** Every stored path has all its ancestors stored: the store is a tree. */
  ghost predicate AncestorClosed(m: Store)
  {
    forall k, a :: k in m && a in Ancestors(k) ==> a in m
  }

  /** `m` with the missing ancestors of `p` added, each holding the empty value. */
  function WithAncestors(m: Store, p: string): Store
  {
    m + map a | a in Ancestors(p) && a !in m :: ""
  }

  function DeleteSubtree(m: Store, p: string): Store
  {
    map k | k in m && !InSubtree(k, p) :: m[k]
  }

  function Apply(m: Store, op: Mutation): Store
  {
    match op
    case Created(p, v) => WithAncestors(m, p)[p := v]
    case SetTo(p, v) => m[p := v]
    case Deleted(p) => DeleteSubtree(m, p)
    case Copied(p, src) => WithAncestors(m, p)[p := if src in m then m[src] else ""]
  }

  /**
   * Which backend calls fail, standing in for a lost connection or a
   * coordination service that refuses a request: a create or set of a path
   * in `writes`, and a recursive delete of a path in `deletes`.
   */
  datatype Faults = Faults(writes: set<string>, deletes: set<string>)

  /**
   * The error the backend raises for `op` in store `m`, if any. A delete of
   * a missing key reports the missing key before anything else.
   */
  function OpFailure(op: Mutation, failing: Faults, m: Store): (r: Option<CssError>)
  {
    match op
    case Created(p, _) => if p in failing.writes then Some(BackendFailure(p)) else if p in m then Some(KeyExists(p)) else None
    case SetTo(p, _) => if p in failing.writes then Some(BackendFailure(p)) else if p !in m then Some(KeyDoesNotExist(p)) else None
    case Deleted(p) => if p !in m then Some(KeyDoesNotExist(p)) else if p in failing.deletes then Some(BackendFailure(p)) else None
    case Copied(p, src) =>
      if src !in m then Some(KeyDoesNotExist(src))
      else if p in failing.writes then Some(BackendFailure(p)) else if p in m then Some(KeyExists(p)) else None
  }

  /** The store reached from `m` by performing `ops` in order. */
  function ApplyAll(m: Store, ops: seq<Mutation>): Store
  {
    if ops == [] then m else Apply(ApplyAll(m, ops[..|ops| - 1]), ops[|ops| - 1])
  }

  /** The names of the direct children of `p`. */
  function ChildNames(m: Store, p: string): set<string>
  {
    set k | k in m && IsChildPath(p, k) :: k[|p| + 1..]
  }

  // ----- facts about paths -----

  lemma SubtreeHasAncestor(k: string, p: string)
    requires p != "" && InSubtree(k, p) && k != p
    ensures p in Ancestors(k)
  {
    assert k[..|p|] == p && 0 < |p| < |k| && k[|p|] == '/';
  }

  lemma AncestorOfSubtreeMember(k: string, a: string, p: string)
    requires a in Ancestors(k)
    ensures InSubtree(a, p) || a in Ancestors(p) || !InSubtree(k, p)
  {
    if InSubtree(k, p) && k != p {
      var i :| 0 < i < |k| && k[i] == '/' && a == k[..i];
      if i < |p| {
        assert p[i] == k[i] && a == p[..i];
      } else if i > |p| {
        assert a[..|p|] == k[..|p|];
      }
    }
  }

  /** Below-ness is inherited from an ancestor. */
  lemma SubtreeOfAncestor(k: string, a: string, p: string)
    requires a in Ancestors(k) && InSubtree(a, p)
    ensures InSubtree(k, p)
  {
    var i :| 0 < i < |k| && k[i] == '/' && a == k[..i];
    if a != p {
      assert k[..|p|] == a[..|p|];
      assert k[|p|] == a[|p|];
    }
  }

  lemma AncestorsTransitive(k: string, a: string)
    requires a in Ancestors(k)
    ensures Ancestors(a) <= Ancestors(k)
  {
    var i :| 0 < i < |k| && k[i] == '/' && a == k[..i];
    forall b | b in Ancestors(a) ensures b in Ancestors(k) {
      var j :| 0 < j < |a| && a[j] == '/' && b == a[..j];
      assert k[j] == '/' && b == k[..j];
    }
  }

  /** In a tree, an absent path has nothing below it. */
  lemma AbsentRootEmptySubtree(m: Store, p: string)
    requires AncestorClosed(m) && p != "" && p !in m
    ensures forall k :: k in m ==> !InSubtree(k, p)
  {
    forall k | k in m && InSubtree(k, p) ensures false {
      SubtreeHasAncestor(k, p);
    }
  }

  /** `p + "/" + name` is `p` followed by the text `"/" + name`. */
  lemma JoinChild(p: string, name: string, suffix: string)
    requires suffix == "/" + name
    ensures p + "/" + name == p + suffix
  {
  }

  /** Child paths `p/x` and `q/y` with slash-free names differ unless `p == q` and `x == y`. */
  lemma ChildPathsDiffer(p: string, x: string, q: string, y: string)
    requires '/' !in x && '/' !in y && (p != q || x != y)
    ensures p + "/" + x != q + "/" + y
  {
    var s, t := p + "/" + x, q + "/" + y;
    if |s| == |t| {
      if |x| < |y| {
        CharAfterSlash(q, y, |y| - 1 - |x|);
        assert s[|s| - 1 - |x|] != t[|t| - 1 - |x|];
      } else if |y| < |x| {
        CharAfterSlash(p, x, |x| - 1 - |y|);
        assert s[|s| - 1 - |y|] != t[|t| - 1 - |y|];
      } else if x != y {
        var j :| 0 <= j < |x| && x[j] != y[j];
        assert s[|p| + 1 + j] != t[|q| + 1 + j];
      } else {
        var j :| 0 <= j < |p| && p[j] != q[j];
        assert s[j] != t[j];
      }
    }
  }

  lemma CharAfterSlash(p: string, x: string, i: int)
    ensures 0 <= i < |x| ==> (p + "/" + x)[|p| + 1 + i] == x[i] && x[i] in x
    ensures (p + "/" + x)[|p|] == '/'
  {
  }

  /** A node that holds the child `p/x` of `p` is that child, or `p` lies below it. */
  lemma SubtreeOfChild(k: string, p: string, x: string)
    requires '/' !in x && InSubtree(p + "/" + x, k)
    ensures k == p + "/" + x || InSubtree(p, k)
  {
    var c := p + "/" + x;
    if c != k {
      if |k| > |p| {
        CharAfterSlash(p, x, |k| - |p| - 1);
      } else {
        assert p[..|k|] == c[..|k|];
        if |k| < |p| {
          assert p[|k|] == c[|k|];
        }
      }
    }
  }

  lemma ChildNameMember(m: Store, p: string, n: string)
    ensures n in ChildNames(m, p) <==> n != "" && '/' !in n && p + "/" + n in m
  {
    var k := p + "/" + n;
    if n != "" && '/' !in n && k in m {
      assert k[..|p|] == p && k[|p| + 1..] == n;
      assert IsChildPath(p, k);
    }
    if n in ChildNames(m, p) {
      var k' :| k' in m && IsChildPath(p, k') && n == k'[|p| + 1..];
      assert k' == p + "/" + n;
    }
  }

  // ----- the store operations keep it a tree -----

  lemma CreatedKeepsClosed(m: Store, p: string, v: string)
    requires AncestorClosed(m)
    ensures AncestorClosed(Apply(m, Created(p, v)))
  {
    var m' := WithAncestors(m, p)[p := v];
    forall k, a | k in m' && a in Ancestors(k) ensures a in m' {
      if k !in m {
        if k != p {
          AncestorsTransitive(p, k);
        }
      }
    }
  }

  lemma DeletedKeepsClosed(m: Store, p: string)
    requires AncestorClosed(m)
    ensures AncestorClosed(DeleteSubtree(m, p))
  {
    var m' := DeleteSubtree(m, p);
    forall k, a | k in m' && a in Ancestors(k) ensures a in m' {
      if InSubtree(a, p) {
        SubtreeOfAncestor(k, a, p);
      }
    }
  }
  /** Every store operation the backend accepts keeps the store a tree (a set needs its key present). */
  lemma ApplyKeepsClosed(m: Store, op: Mutation)
    requires AncestorClosed(m) && (op.SetTo? ==> op.path in m)
    ensures AncestorClosed(Apply(m, op))
  {
    match op
    case Created(p, v) => CreatedKeepsClosed(m, p, v);
    case SetTo(p, v) =>
      assert Apply(m, op).Keys == m.Keys;
    case Deleted(p) => DeletedKeepsClosed(m, p);
    case Copied(p, src) => CreatedKeepsClosed(m, p, if src in m then m[src] else "");
  }


  lemma {:induction false} ApplyAllAppend(m: Store, a: seq<Mutation>, b: seq<Mutation>)
    ensures ApplyAll(m, a + b) == ApplyAll(ApplyAll(m, a), b)
  {
    if b != [] {
      assert (a + b)[..|a + b| - 1] == a + b[..|b| - 1];
      ApplyAllAppend(m, a, b[..|b| - 1]);
    } else {
      assert a + b == a;
    }
  }

  lemma ApplyAllSnoc(m: Store, a: seq<Mutation>, op: Mutation)
    ensures ApplyAll(m, a + [op]) == Apply(ApplyAll(m, a), op)
  {
    assert (a + [op])[..|a|] == a;
  }

  /** The store before the first mutation of `ops` and after each one: `t[k]` is the store once `k` have run. */
  function Trace(m: Store, ops: seq<Mutation>): (t: seq<Store>)
    ensures |t| == |ops| + 1 && t[0] == m
  {
    if ops == [] then [m]
    else
      var t := Trace(m, ops[..|ops| - 1]);
      t + [Apply(t[|ops| - 1], ops[|ops| - 1])]
  }

  /** Each store of the trace comes from the previous one by one mutation. */
  lemma {:induction false} TraceStep(m: Store, ops: seq<Mutation>, k: nat)
    requires k < |ops|
    ensures Trace(m, ops)[k + 1] == Apply(Trace(m, ops)[k], ops[k])
  {
    if k + 1 < |ops| {
      assert ops[..|ops| - 1][k] == ops[k];
      TraceStep(m, ops[..|ops| - 1], k);
    }
  }

  /** The trace agrees with running each prefix of `ops` from `m`. */
  lemma {:induction false} TraceApplyAll(m: Store, ops: seq<Mutation>, k: nat)
    requires k <= |ops|
    ensures Trace(m, ops)[k] == ApplyAll(m, ops[..k])
  {
    if k == 0 {
      assert ops[..0] == [];
    } else {
      TraceApplyAll(m, ops, k - 1);
      TraceStep(m, ops, k - 1);
      assert ops[..k] == ops[..k - 1] + [ops[k - 1]];
      ApplyAllSnoc(m, ops[..k - 1], ops[k - 1]);
    }
  }

  // ----- sequences of writes -----

  /** The mutations create or set keys and never delete. */
  predicate NoDeletes(ops: seq<Mutation>)
  {
    forall i :: 0 <= i < |ops| ==> !ops[i].Deleted?
  }

  /** One `create` per name, of `p + "/" + name` with the matching value, in list order. */
  function ChildOps(p: string, names: seq<string>, values: seq<string>): (ops: seq<Mutation>)
    requires |values| == |names|
    ensures |ops| == |names| && NoDeletes(ops)
    ensures forall i :: 0 <= i < |names| ==> ops[i] == Created(p + "/" + names[i], values[i])
  {
    seq(|names|, i requires 0 <= i < |names| => Created(p + "/" + names[i], values[i]))
  }

  function ChildPaths(p: string, names: seq<string>): set<string>
  {
    set n | n in names :: p + "/" + n
  }

  predicate SlashFree(names: seq<string>)
  {
    forall i :: 0 <= i < |names| ==> '/' !in names[i]
  }

  predicate Distinct(names: seq<string>)
  {
    forall i, j :: 0 <= i < j < |names| ==> names[i] != names[j]
  }

  lemma AncestorsOfChild(p: string, n: string)
    requires p != "" && '/' !in n
    ensures Ancestors(p + "/" + n) == Ancestors(p) + {p}
  {
    var s := p + "/" + n;
    forall a | a in Ancestors(s) ensures a in Ancestors(p) + {p} {
      var i :| 0 < i < |s| && s[i] == '/' && a == s[..i];
      if i > |p| {
        CharAfterSlash(p, n, i - |p| - 1);
      } else if i < |p| {
        assert p[i] == s[i] && a == p[..i];
      }
    }
    forall a | a in Ancestors(p) + {p} ensures a in Ancestors(s) {
      if a == p {
        assert s[|p|] == '/' && s[..|p|] == p;
      } else {
        var j :| 0 < j < |p| && p[j] == '/' && a == p[..j];
        assert s[j] == '/' && s[..j] == a;
      }
    }
  }

  /** Creating slash-free, distinct children of `p` adds `p`, its missing ancestors and the children, each child with its value. */
  lemma {:induction false} ChildOpsEffect(m: Store, p: string, names: seq<string>, values: seq<string>)
    requires p != "" && |values| == |names| && SlashFree(names) && Distinct(names)
    ensures ChildOpsPost(m, p, names, values, ApplyAll(m, ChildOps(p, names, values)))
  {
    var ops := ChildOps(p, names, values);
    if names == [] {
      assert ops == [];
    } else {
      var n := |names|;
      assert ops[..n - 1] == ChildOps(p, names[..n - 1], values[..n - 1]);
      ChildOpsEffect(m, p, names[..n - 1], values[..n - 1]);
      ChildOpsStep(m, p, names, values, ApplyAll(m, ops[..n - 1]));
    }
  }

  /** The values half of `ChildOpsEffect`: each child holds its value and every other stored key keeps its own. */
  lemma ChildOpsValues(m: Store, p: string, names: seq<string>, values: seq<string>)
    requires p != "" && |values| == |names| && SlashFree(names) && Distinct(names)
    ensures var m' := ApplyAll(m, ChildOps(p, names, values));
      && (forall i :: 0 <= i < |names| ==> p + "/" + names[i] in m' && m'[p + "/" + names[i]] == values[i])
      && (forall k :: k in m && k !in ChildPaths(p, names) ==> k in m' && m'[k] == m[k])
  {
    ChildOpsEffect(m, p, names, values);
  }

  /** What creating the children `names` of `p` in `m` leaves in the store `m'`. */
  ghost predicate ChildOpsPost(m: Store, p: string, names: seq<string>, values: seq<string>, m': Store)
    requires |values| == |names|
  {
    && m'.Keys == m.Keys + (if names == [] then {} else Ancestors(p) + {p}) + ChildPaths(p, names)
    && (forall i :: 0 <= i < |names| ==> p + "/" + names[i] in m' && m'[p + "/" + names[i]] == values[i])
    && (forall k :: k in m && k !in ChildPaths(p, names) ==> k in m' && m'[k] == m[k])
  }

  lemma ChildPathsSnoc(p: string, names: seq<string>)
    requires names != []
    ensures ChildPaths(p, names) == ChildPaths(p, names[..|names| - 1]) + {p + "/" + names[|names| - 1]}
  {
    assert names == names[..|names| - 1] + [names[|names| - 1]];
  }

  /** A `create` adds the path and its missing ancestors and changes no stored value but the path's own. */
  lemma CreatedEffect(m: Store, p: string, v: string)
    ensures var m' := Apply(m, Created(p, v));
      && m'.Keys == m.Keys + Ancestors(p) + {p}
      && m'[p] == v
      && forall k :: k in m && k != p ==> m'[k] == m[k]
  {
  }

  /** A recursive delete keeps exactly the keys outside the subtree, with their values. */
  lemma DeletedEffect(m: Store, p: string)
    ensures forall k :: k in Apply(m, Deleted(p)) <==> k in m && !InSubtree(k, p)
    ensures forall k :: k in Apply(m, Deleted(p)) ==> Apply(m, Deleted(p))[k] == m[k]
  {
  }

  /** The inductive step of `ChildOpsEffect`: creating the last child after the others. */
  lemma ChildOpsStep(m: Store, p: string, names: seq<string>, values: seq<string>, m1: Store)
    requires p != "" && |values| == |names| > 0 && SlashFree(names) && Distinct(names)
    requires ChildOpsPost(m, p, names[..|names| - 1], values[..|names| - 1], m1)
    ensures ChildOpsPost(m, p, names, values, Apply(m1, Created(p + "/" + names[|names| - 1], values[|names| - 1])))
  {
    var n := |names|;
    var last := p + "/" + names[n - 1];
    var m' := Apply(m1, Created(last, values[n - 1]));
    CreatedEffect(m1, last, values[n - 1]);
    assert m'.Keys == m.Keys + (Ancestors(p) + {p}) + ChildPaths(p, names) by {
      AncestorsOfChild(p, names[n - 1]);
      ChildPathsSnoc(p, names);
      if n == 1 {
        assert ChildPaths(p, names[..n - 1]) == {};
      }
    }
    assert forall i :: 0 <= i < n ==> p + "/" + names[i] in m' && m'[p + "/" + names[i]] == values[i] by {
      forall i | 0 <= i < n - 1 ensures p + "/" + names[i] in m' && m'[p + "/" + names[i]] == values[i] {
        ChildPathsDiffer(p, names[i], p, names[n - 1]);
        assert names[..n - 1][i] == names[i] && values[..n - 1][i] == values[i];
      }
    }
    assert forall k :: k in m && k !in ChildPaths(p, names) ==> k in m' && m'[k] == m[k] by {
      ChildPathsSnoc(p, names);
    }
    assert names != [];
    assert ChildOpsPost(m, p, names, values, m');
  }

  /** Writes below `p` or `q` add only keys below them or above them, and change nothing else. */
  lemma {:induction false} WritesUnder(m: Store, ops: seq<Mutation>, p: string, q: string)
    requires NoDeletes(ops)
    requires forall i :: 0 <= i < |ops| ==> InSubtree(ops[i].path, p) || InSubtree(ops[i].path, q)
    ensures var m' := ApplyAll(m, ops);
      && m.Keys <= m'.Keys
      && (forall k :: k in m' ==> k in m || InSubtree(k, p) || InSubtree(k, q) || k in Ancestors(p) || k in Ancestors(q))
      && (forall k :: k in m && !InSubtree(k, p) && !InSubtree(k, q) ==> m'[k] == m[k])
  {
    if ops != [] {
      var n := |ops|;
      WritesUnder(m, ops[..n - 1], p, q);
      var op := ops[n - 1];
      forall a | a in Ancestors(op.path)
        ensures InSubtree(a, p) || InSubtree(a, q) || a in Ancestors(p) || a in Ancestors(q)
      {
        AncestorOfSubtreeMember(op.path, a, p);
        AncestorOfSubtreeMember(op.path, a, q);
      }
    }
  }

  /** Creates and sets never remove a key. */
  lemma {:induction false} NoDeletesKeepKeys(m: Store, ops: seq<Mutation>)
    requires NoDeletes(ops)
    ensures m.Keys <= ApplyAll(m, ops).Keys
  {
    if ops != [] {
      NoDeletesKeepKeys(m, ops[..|ops| - 1]);
    }
  }

  /** A path created by step `j` of a plan without deletes is still there after step `k - 1`. */
  lemma CreatedStays(m: Store, plan: seq<Mutation>, j: nat, k: nat)
    requires j < k <= |plan| && NoDeletes(plan) && plan[j].Created?
    ensures plan[j].path in ApplyAll(m, plan[..k])
  {
    assert plan[..k] == plan[..j + 1] + plan[j + 1..k];
    assert plan[..j + 1] == plan[..j] + [plan[j]];
    ApplyAllSnoc(m, plan[..j], plan[j]);
    ApplyAllAppend(m, plan[..j + 1], plan[j + 1..k]);
    assert NoDeletes(plan[j + 1..k]);
    NoDeletesKeepKeys(ApplyAll(m, plan[..j + 1]), plan[j + 1..k]);
  }

  /** Writes to other paths never change the value of a stored key. */
  lemma {:induction false} WritesElsewhereKeep(m: Store, ops: seq<Mutation>, key: string)
    requires NoDeletes(ops) && key in m
    requires forall i :: 0 <= i < |ops| ==> ops[i].path != key
    ensures key in ApplyAll(m, ops) && ApplyAll(m, ops)[key] == m[key]
  {
    if ops != [] {
      WritesElsewhereKeep(m, ops[..|ops| - 1], key);
    }
  }

  /**
   * The backend client (`CssInterface` / `KvInterface`): single-key
   * operations on a store, with a failure oracle standing in for the
   * network and the coordination service failing.
   */
  class Css {
    var entries: Store
    /** The sequence number the next sequential create appends. */
    var counter: nat
    /** The calls that fail with a backend error. */
    const failing: Faults

    constructor (failing: Faults)
      ensures entries == map[] && counter == 0
      ensures this.failing == failing
    {
      entries := map[];
      counter := 0;
      this.failing := failing;
    }

    function Exists(p: string): bool
      reads this
    {
      p in entries
    }

    function Get(p: string): Result<string, CssError>
      reads this
    {
      if p in entries then Ok(entries[p]) else Err(KeyDoesNotExist(p))
    }

    method Create(p: string, v: string) returns (r: Outcome<CssError>)
      modifies this
      ensures counter == old(counter)
      ensures r.Fail? <==> p in failing.writes || p in old(entries)
      ensures r.Fail? ==> r.error == (if p in failing.writes then BackendFailure(p) else KeyExists(p))
      ensures r.Fail? ==> entries == old(entries)
      ensures r.Pass? ==> entries == Apply(old(entries), Created(p, v))
    {
      if p in failing.writes {
        return Fail(BackendFailure(p));
      }
      if p in entries {
        return Fail(KeyExists(p));
      }
      entries := Apply(entries, Created(p, v));
      r := Pass;
    }

    /** Creates `base` followed by the ten-digit counter and returns the full path. */
    method CreateSequential(base: string) returns (r: Result<string, CssError>)
      modifies this
      ensures var p := base + Pad10(old(counter));
        && (r.Err? <==> p in failing.writes || p in old(entries))
        && (r.Err? ==> r.error == (if p in failing.writes then BackendFailure(p) else KeyExists(p)))
        && (r.Err? ==> entries == old(entries) && counter == old(counter))
        && (r.Ok? ==> r.value == p && counter == old(counter) + 1)
        && (r.Ok? ==> entries == Apply(old(entries), Created(p, "")))
    {
      var p := base + Pad10(counter);
      if p in failing.writes {
        return Err(BackendFailure(p));
      }
      if p in entries {
        return Err(KeyExists(p));
      }
      entries := Apply(entries, Created(p, ""));
      counter := counter + 1;
      r := Ok(p);
    }

    method Set(p: string, v: string) returns (r: Outcome<CssError>)
      modifies this
      ensures counter == old(counter)
      ensures r.Fail? <==> p in failing.writes || p !in old(entries)
      ensures r.Fail? ==> r.error == (if p in failing.writes then BackendFailure(p) else KeyDoesNotExist(p))
      ensures r.Fail? ==> entries == old(entries)
      ensures r.Pass? ==> entries == Apply(old(entries), SetTo(p, v))
    {
      if p in failing.writes {
        return Fail(BackendFailure(p));
      }
      if p !in entries {
        return Fail(KeyDoesNotExist(p));
      }
      entries := entries[p := v];
      r := Pass;
    }

    /** Recursive delete: removes `p` and everything below it. */
    method Delete(p: string) returns (r: Outcome<CssError>)
      modifies this
      ensures counter == old(counter)
      ensures r.Fail? <==> p !in old(entries) || p in failing.deletes
      ensures r.Fail? ==> r.error == (if p !in old(entries) then KeyDoesNotExist(p) else BackendFailure(p))
      ensures r.Fail? ==> entries == old(entries)
      ensures r.Pass? ==> entries == Apply(old(entries), Deleted(p))
    {
      if p !in entries {
        return Fail(KeyDoesNotExist(p));
      }
      if p in failing.deletes {
        return Fail(BackendFailure(p));
      }
      entries := DeleteSubtree(entries, p);
      r := Pass;
    }
  }

  /**
   * `getChildren`: the names of the direct children of `p`, each once, in an
   * order the backend chooses; fails when `p` is absent.
   */
  method ListChildren(m: Store, p: string) returns (r: Result<seq<string>, CssError>)
    ensures r.Err? <==> p !in m
    ensures r.Err? ==> r.error == KeyDoesNotExist(p)
    ensures r.Ok? ==> forall n :: n in r.value <==> n in ChildNames(m, p)
    ensures r.Ok? ==> forall i, j :: 0 <= i < j < |r.value| ==> r.value[i] != r.value[j]
  {
    if p !in m {
      return Err(KeyDoesNotExist(p));
    }
    var pending := ChildNames(m, p);
    var names: seq<string> := [];
    while pending != {}
      invariant forall n :: n in names ==> n in ChildNames(m, p) && n !in pending
      invariant forall n :: n in ChildNames(m, p) ==> n in names || n in pending
      invariant pending <= ChildNames(m, p)
      invariant forall i, j :: 0 <= i < j < |names| ==> names[i] != names[j]
      decreases pending
    {
      var n :| n in pending;
      names := names + [n];
      pending := pending - {n};
    }
    r := Ok(names);
  }
}
