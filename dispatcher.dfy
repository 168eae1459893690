/**
 * The master dispatcher's reporting on a finished session: the name of a
 * query state, the error description that groups failed chunks by the
 * first transfer stage that failed, and the success verdict of
 * `joinSession`.
 */
module Dispatcher {
  import opened Decimal

  // ----- query states -----

  /** The query states, and a value outside the enumeration as `Unlisted`. */
  datatype QueryState = Unknown | Waiting | Dispatched | Success | Error | Unlisted(code: int)

  /** `getQueryStateString`. */
  function GetQueryStateString(qs: QueryState): string
  {
    match qs
    case Unknown => "unknown"
    case Waiting => "waiting"
    case Dispatched => "dispatched"
    case Success => "success"
    case Error => "error"
    case Unlisted(_) => "unknown"
  }

  /** The state a state name stands for; a name that is not one reads as `Unknown`. */
  function StateNamed(name: string): QueryState
  {
    if name == "waiting" then Waiting
    else if name == "dispatched" then Dispatched
    else if name == "success" then Success
    else if name == "error" then Error
    else Unknown
  }

  /**
   * The state names read back: each listed state other than `Unknown` has
   * its own name, and every other value, `Unknown` included, is named
   * "unknown".
   */
  lemma StateNameRoundTrip(qs: QueryState)
    ensures StateNamed(GetQueryStateString(qs)) == (if qs.Unlisted? then Unknown else qs)
    ensures GetQueryStateString(qs) == "unknown" <==> qs.Unknown? || qs.Unlisted?
  {
  }

  // ----- chunk results -----

  /**
   * The final state of one chunk's transfer: the chunk id, the byte counts
   * of the open, the query write, the read and the local write, and the
   * transfer's own success verdict.
   */
  datatype ChunkResult = ChunkResult(chunkId: int, open: int, queryWrite: int, read: int, localWrite: int, successful: bool)

  /** The error buckets, and the chunks that fall in none. */
  datatype Stage = OpenFailed | QueryWriteFailed | ReadFailed | LocalWriteFailed | NoFailure

  /** The first stage that failed for a chunk: a non-positive open, query write or local write, or a negative read. */
  function FirstFailure(x: ChunkResult): Stage
  {
    if x.open <= 0 then OpenFailed
    else if x.queryWrite <= 0 then QueryWriteFailed
    else if x.read < 0 then ReadFailed
    else if x.localWrite <= 0 then LocalWriteFailed
    else NoFailure
  }

  /** What one result adds to a bucket: its chunk id when the bucket is that of its first failed stage. */
  function Entry(x: ChunkResult, st: Stage): seq<int>
  {
    if FirstFailure(x) == st then [x.chunkId] else []
  }

  /** The ids of the chunks in a bucket, in result order. */
  function ChunksIn(d: seq<ChunkResult>, st: Stage): (ids: seq<int>)
    ensures |ids| <= |d|
  {
    if d == [] then []
    else ChunksIn(d[..|d| - 1], st) + Entry(d[|d| - 1], st)
  }

  /** The listed chunk ids, each after a space. */
  function IdList(ids: seq<int>): string
  {
    if ids == [] then "" else IdList(ids[..|ids| - 1]) + " " + IntToString(ids[|ids| - 1])
  }

  /** A bucket's text: empty for no chunk, else its heading once and then each id. */
  function BucketText(name: string, ids: seq<int>): string
  {
    if ids == [] then "" else name + " failed for chunk(s):" + IdList(ids)
  }

  /** `getErrorDesc` as a function of the results. */
  function ErrorDesc(d: seq<ChunkResult>): string
  {
    var early := BucketText("open", ChunksIn(d, OpenFailed)) + BucketText("queryWrite", ChunksIn(d, QueryWriteFailed))
                 + BucketText("read", ChunksIn(d, ReadFailed));
    if early == "" then BucketText("localWrite", ChunksIn(d, LocalWriteFailed)) else early
  }

  /** One more result adds its chunk to the bucket of its first failed stage and to no other. */
  lemma ChunksInSnoc(d: seq<ChunkResult>, x: ChunkResult, st: Stage)
    ensures ChunksIn(d + [x], st) == ChunksIn(d, st) + Entry(x, st)
  {
    assert (d + [x])[..|d|] == d;
  }

  /** The four buckets and the chunks that failed no stage hold one entry per result. */
  lemma {:induction false} BucketSizes(d: seq<ChunkResult>)
    ensures |ChunksIn(d, OpenFailed)| + |ChunksIn(d, QueryWriteFailed)| + |ChunksIn(d, ReadFailed)|
            + |ChunksIn(d, LocalWriteFailed)| + |ChunksIn(d, NoFailure)| == |d|
  {
    if d != [] {
      var init, x := d[..|d| - 1], d[|d| - 1];
      BucketSizes(init);
      assert |Entry(x, OpenFailed)| + |Entry(x, QueryWriteFailed)| + |Entry(x, ReadFailed)|
             + |Entry(x, LocalWriteFailed)| + |Entry(x, NoFailure)| == 1;
    }
  }

  /** Every result's chunk is in the bucket of its first failed stage. */
  lemma {:induction false} BucketMembership(d: seq<ChunkResult>)
    ensures forall i :: 0 <= i < |d| ==> d[i].chunkId in ChunksIn(d, FirstFailure(d[i]))
  {
    if d != [] {
      var init, x := d[..|d| - 1], d[|d| - 1];
      BucketMembership(init);
      assert init + [x] == d;
      forall i | 0 <= i < |d| ensures d[i].chunkId in ChunksIn(d, FirstFailure(d[i])) {
        ChunksInSnoc(init, x, FirstFailure(d[i]));
        if i < |init| {
          assert d[i] == init[i];
        }
      }
    }
  }

  /** A bucket holds only the chunks whose first failed stage is its own. */
  lemma {:induction false} ChunksInFrom(d: seq<ChunkResult>, st: Stage)
    ensures forall v :: v in ChunksIn(d, st) ==> exists i :: 0 <= i < |d| && d[i].chunkId == v && FirstFailure(d[i]) == st
  {
    if d != [] {
      var init, x := d[..|d| - 1], d[|d| - 1];
      ChunksInFrom(init, st);
      assert forall i :: 0 <= i < |init| ==> init[i] == d[i];
    }
  }

  /** A bucket is empty exactly when no result falls in it. */
  lemma {:induction false} ChunksInEmpty(d: seq<ChunkResult>, st: Stage)
    ensures ChunksIn(d, st) == [] <==> forall i :: 0 <= i < |d| ==> FirstFailure(d[i]) != st
  {
    if d != [] {
      ChunksInEmpty(d[..|d| - 1], st);
      assert forall i :: 0 <= i < |d| - 1 ==> d[..|d| - 1][i] == d[i];
    }
  }

  lemma BucketTextEmpty(name: string, ids: seq<int>)
    requires name != ""
    ensures BucketText(name, ids) == "" <==> ids == []
  {
    if ids != [] {
      assert |BucketText(name, ids)| >= |name|;
    }
  }

  /** An open, query write or read failure: the stages whose failures hide local write failures. */
  predicate FailedEarly(st: Stage)
  {
    st == OpenFailed || st == QueryWriteFailed || st == ReadFailed
  }

  /** The three leading buckets' texts are all empty exactly when no chunk failed early. */
  lemma EarlyTextEmpty(d: seq<ChunkResult>)
    ensures BucketText("open", ChunksIn(d, OpenFailed)) + BucketText("queryWrite", ChunksIn(d, QueryWriteFailed))
              + BucketText("read", ChunksIn(d, ReadFailed)) == ""
            <==> forall i :: 0 <= i < |d| ==> !FailedEarly(FirstFailure(d[i]))
  {
    ChunksInEmpty(d, OpenFailed);
    ChunksInEmpty(d, QueryWriteFailed);
    ChunksInEmpty(d, ReadFailed);
    BucketTextEmpty("open", ChunksIn(d, OpenFailed));
    BucketTextEmpty("queryWrite", ChunksIn(d, QueryWriteFailed));
    BucketTextEmpty("read", ChunksIn(d, ReadFailed));
  }

  /**
   * Local write failures are reported only when no chunk failed earlier,
   * and then alone; otherwise the open, query write and read buckets are
   * reported in that order.
   */
  lemma ErrorDescMeaning(d: seq<ChunkResult>)
    ensures (forall i :: 0 <= i < |d| ==> !FailedEarly(FirstFailure(d[i]))) ==>
      ErrorDesc(d) == BucketText("localWrite", ChunksIn(d, LocalWriteFailed))
    ensures (exists i :: 0 <= i < |d| && FailedEarly(FirstFailure(d[i]))) ==>
      ErrorDesc(d) == BucketText("open", ChunksIn(d, OpenFailed)) + BucketText("queryWrite", ChunksIn(d, QueryWriteFailed))
                      + BucketText("read", ChunksIn(d, ReadFailed))
  {
    EarlyTextEmpty(d);
  }

  /** The description is empty exactly when every chunk went through every stage. */
  lemma ErrorDescEmpty(d: seq<ChunkResult>)
    ensures ErrorDesc(d) == "" <==> forall i :: 0 <= i < |d| ==> FirstFailure(d[i]) == NoFailure
  {
    EarlyTextEmpty(d);
    ChunksInEmpty(d, LocalWriteFailed);
    BucketTextEmpty("localWrite", ChunksIn(d, LocalWriteFailed));
  }

  /** `_ErrMsgStr_`: one bucket's text, built up one chunk id at a time. */
  class ErrMsgStr {
    const name: string
    var text: string
    /** The chunk ids added so far. */
    ghost var ids: seq<int>

    ghost predicate Valid()
      reads this
    {
      name != "" && text == BucketText(name, ids)
    }

    constructor (name: string)
      requires name != ""
      ensures Valid() && this.name == name && ids == []
    {
      this.name := name;
      text := "";
      ids := [];
    }

    /** `add`: the heading on the first chunk, then a space and the id. */
    method Add(x: int)
      requires Valid()
      modifies this
      ensures Valid() && ids == old(ids) + [x]
    {
      BucketTextEmpty(name, ids);
      var head := name + " failed for chunk(s):";
      assert (ids + [x])[..|ids|] == ids;
      assert IdList(ids + [x]) == IdList(ids) + " " + IntToString(x);
      if |text| == 0 {
        assert IdList(ids) == "";
        text := head;
      }
      text := text + " " + IntToString(x);
      ids := ids + [x];
    }
  }

  /** One pass of `getErrorDesc`'s loop: the chunk goes to the bucket of its first failed stage. */
  method AddToBucket(x: ChunkResult, openV: ErrMsgStr, qwrtV: ErrMsgStr, readV: ErrMsgStr, lwrtV: ErrMsgStr)
    requires openV.Valid() && qwrtV.Valid() && readV.Valid() && lwrtV.Valid()
    requires openV != qwrtV && openV != readV && openV != lwrtV && qwrtV != readV && qwrtV != lwrtV && readV != lwrtV
    modifies openV, qwrtV, readV, lwrtV
    ensures openV.Valid() && qwrtV.Valid() && readV.Valid() && lwrtV.Valid()
    ensures openV.ids == old(openV.ids) + Entry(x, OpenFailed)
    ensures qwrtV.ids == old(qwrtV.ids) + Entry(x, QueryWriteFailed)
    ensures readV.ids == old(readV.ids) + Entry(x, ReadFailed)
    ensures lwrtV.ids == old(lwrtV.ids) + Entry(x, LocalWriteFailed)
  {
    if x.open <= 0 {
      openV.Add(x.chunkId);
    } else if x.queryWrite <= 0 {
      qwrtV.Add(x.chunkId);
    } else if x.read < 0 {
      readV.Add(x.chunkId);
    } else if x.localWrite <= 0 {
      lwrtV.Add(x.chunkId);
    }
  }

  /** One more result extends each bucket by that result's entry. */
  lemma BucketsStep(d: seq<ChunkResult>, i: nat)
    requires i < |d|
    ensures forall st :: ChunksIn(d[..i + 1], st) == ChunksIn(d[..i], st) + Entry(d[i], st)
  {
    assert d[..i + 1][..i] == d[..i];
  }

  /** The loop of `getErrorDesc`: every result goes to the bucket of its first failed stage. */
  method CollectBuckets(d: seq<ChunkResult>, openV: ErrMsgStr, qwrtV: ErrMsgStr, readV: ErrMsgStr, lwrtV: ErrMsgStr)
    requires openV.Valid() && qwrtV.Valid() && readV.Valid() && lwrtV.Valid()
    requires openV != qwrtV && openV != readV && openV != lwrtV && qwrtV != readV && qwrtV != lwrtV && readV != lwrtV
    requires openV.ids == [] && qwrtV.ids == [] && readV.ids == [] && lwrtV.ids == []
    modifies openV, qwrtV, readV, lwrtV
    ensures openV.Valid() && qwrtV.Valid() && readV.Valid() && lwrtV.Valid()
    ensures openV.ids == ChunksIn(d, OpenFailed) && qwrtV.ids == ChunksIn(d, QueryWriteFailed)
    ensures readV.ids == ChunksIn(d, ReadFailed) && lwrtV.ids == ChunksIn(d, LocalWriteFailed)
  {
    var i := 0;
    while i < |d|
      invariant 0 <= i <= |d|
      invariant openV.Valid() && qwrtV.Valid() && readV.Valid() && lwrtV.Valid()
      invariant openV.ids == ChunksIn(d[..i], OpenFailed) && qwrtV.ids == ChunksIn(d[..i], QueryWriteFailed)
      invariant readV.ids == ChunksIn(d[..i], ReadFailed) && lwrtV.ids == ChunksIn(d[..i], LocalWriteFailed)
    {
      BucketsStep(d, i);
      AddToBucket(d[i], openV, qwrtV, readV, lwrtV);
      i := i + 1;
    }
    assert d[..i] == d;
  }

  /** `getErrorDesc` over a session's final results. */
  method GetErrorDesc(d: seq<ChunkResult>) returns (r: string)
    ensures r == ErrorDesc(d)
  {
    var openV := new ErrMsgStr("open");
    var qwrtV := new ErrMsgStr("queryWrite");
    var readV := new ErrMsgStr("read");
    var lwrtV := new ErrMsgStr("localWrite");
    CollectBuckets(d, openV, qwrtV, readV, lwrtV);
    var ss := openV.text + qwrtV.text + readV.text;
    if ss == "" {
      ss := ss + lwrtV.text;
    }
    r := ss;
  }

  // ----- joining a session -----

  /** The chunk ids of the failed results, in order. */
  function Failures(d: seq<ChunkResult>): (ids: seq<int>)
    ensures |ids| <= |d|
  {
    if d == [] then []
    else Failures(d[..|d| - 1]) + (if d[|d| - 1].successful then [] else [d[|d| - 1].chunkId])
  }

  lemma {:induction false} FailuresEmpty(d: seq<ChunkResult>)
    ensures Failures(d) == [] <==> forall i :: 0 <= i < |d| ==> d[i].successful
  {
    if d != [] {
      FailuresEmpty(d[..|d| - 1]);
      assert forall i :: 0 <= i < |d| - 1 ==> d[..|d| - 1][i] == d[i];
    }
  }

  /**
   * `mergeStatus`: clears the shared success flag on any failed result, and
   * reports failed chunks while it may print, `firstN` counting the reports
   * down. The report text is left out; the chunks reported are kept.
   */
  class MergeStatus {
    var isSuccessful: bool
    const shouldPrint: bool
    var firstN: int
    /** The chunks whose failure was reported, in order. */
    var reported: seq<int>

    constructor (shouldPrint: bool, firstN: int)
      ensures isSuccessful && this.shouldPrint == shouldPrint && this.firstN == firstN && reported == []
    {
      isSuccessful := true;
      this.shouldPrint := shouldPrint;
      this.firstN := firstN;
      reported := [];
    }

    /** `operator()` on one result. */
    method Merge(x: ChunkResult)
      modifies this
      ensures isSuccessful == (old(isSuccessful) && x.successful)
      ensures !x.successful && (shouldPrint || old(firstN) > 0) ==>
        firstN == old(firstN) - 1 && reported == old(reported) + [x.chunkId]
      ensures x.successful || !(shouldPrint || old(firstN) > 0) ==>
        firstN == old(firstN) && reported == old(reported)
    {
      if !x.successful {
        if shouldPrint || firstN > 0 {
          reported := reported + [x.chunkId];
          firstN := firstN - 1;
        }
        isSuccessful := false;
      }
    }
  }

  /** The failures a merge reports when it starts with `n` reports to spare and does not always print: the first `n`. */
  function FirstReports(failures: seq<int>, n: nat): seq<int>
  {
    if |failures| <= n then failures else failures[..n]
  }

  /**
   * `joinSession` after every chunk has been joined: SUCCESS exactly when
   * every result is successful, otherwise ERROR; the first five failed
   * chunks are reported.
   */
  method JoinSession(d: seq<ChunkResult>) returns (st: QueryState, reported: seq<int>)
    ensures st == Success <==> forall i :: 0 <= i < |d| ==> d[i].successful
    ensures st == Success || st == Error
    ensures reported == FirstReports(Failures(d), 5)
  {
    var merge := new MergeStatus(false, 5);
    var i := 0;
    while i < |d|
      invariant 0 <= i <= |d|
      invariant !merge.shouldPrint
      invariant merge.isSuccessful <==> Failures(d[..i]) == []
      invariant merge.firstN == 5 - |merge.reported| >= 0
      invariant merge.reported == FirstReports(Failures(d[..i]), 5)
    {
      assert d[..i + 1][..i] == d[..i];
      merge.Merge(d[i]);
      i := i + 1;
    }
    assert d[..i] == d;
    FailuresEmpty(d);
    reported := merge.reported;
    st := if merge.isSuccessful then Success else Error;
  }
}
