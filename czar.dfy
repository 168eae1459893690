/**
 * The czar's handling of `KILL` statements and the registry that lets it
 * find the query a client thread is running: the statement parser, the
 * client/thread map that each query submission purges and then extends,
 * the query id counter, and the kill lookup.
 */
module CzarService {
  import opened Results
  import opened Decimal

  // ----- parsing KILL statements -----

  /** `k` spaces. */
  function Spaces(k: nat): (s: string)
    ensures |s| == k && forall i :: 0 <= i < k ==> s[i] == ' '
  {
    if k == 0 then [] else Spaces(k - 1) + [' ']
  }

  /** The query with its trailing spaces erased; all spaces give the empty string. */
  function StripTrailingSpaces(s: string): string
    decreases |s|
  {
    if s != [] && s[|s| - 1] == ' ' then StripTrailingSpaces(s[..|s| - 1]) else s
  }

  /**
   * Stripping keeps a prefix of the query, drops only spaces, and leaves no
   * trailing space.
   */
  lemma {:induction false} StripTrailingSpacesMeaning(s: string)
    ensures var r := StripTrailingSpaces(s);
      && |r| <= |s| && s[..|r|] == r
      && (forall i :: |r| <= i < |s| ==> s[i] == ' ')
      && (r == [] || r[|r| - 1] != ' ')
    decreases |s|
  {
    if s != [] && s[|s| - 1] == ' ' {
      StripTrailingSpacesMeaning(s[..|s| - 1]);
    }
  }

  /** Trailing spaces make no difference to what is stripped. */
  lemma {:induction false} StripIgnoresSpaces(s: string, k: nat)
    ensures StripTrailingSpaces(s + Spaces(k)) == StripTrailingSpaces(s)
    decreases k
  {
    if k > 0 {
      var t := s + Spaces(k);
      assert t[..|t| - 1] == s + Spaces(k - 1);
      StripIgnoresSpaces(s, k - 1);
    } else {
      assert s + Spaces(0) == s;
    }
  }

  /** The forms of `KILL` in the order they are tried. */
  const KillPrefixes: seq<string> := ["KILL QUERY ", "KILL CONNECTION ", "KILL "]

  predicate StartsWith(s: string, p: string)
  {
    |p| <= |s| && s[..|p|] == p
  }

  /** What follows a matched prefix: the thread id it spells, or -1 when it is not wholly an `int`. */
  function ThreadIdAfter(s: string, p: string): int
    requires StartsWith(s, p)
  {
    var v := LexicalCastInt(s[|p|..]);
    if v.Some? then v.value else -1
  }

  /** The first prefix the query starts with decides; when none matches the answer is -1. */
  function MatchKill(s: string, prefixes: seq<string>): int
    decreases |prefixes|
  {
    if prefixes == [] then -1
    else if StartsWith(s, prefixes[0]) then ThreadIdAfter(s, prefixes[0])
    else MatchKill(s, prefixes[1..])
  }

  /** `parseKillQuery`: the thread id of a `KILL` statement, or -1. */
  function ParseKillQuery(query: string): int
  {
    MatchKill(StripTrailingSpaces(query), KillPrefixes)
  }

  /**
   * The answer is -1 unless the stripped statement starts with one of the
   * prefixes; the first matching prefix decides, its remainder giving the
   * id or -1; an answer other than -1 is always an `int` the remainder of a
   * matching prefix spells.
   */
  lemma ParseKillQueryMeaning(query: string)
    ensures var t, r := StripTrailingSpaces(query), ParseKillQuery(query);
      && (!StartsWith(t, "KILL ") ==> r == -1)
      && (StartsWith(t, "KILL QUERY ") ==> r == ThreadIdAfter(t, "KILL QUERY "))
      && (!StartsWith(t, "KILL QUERY ") && StartsWith(t, "KILL CONNECTION ") ==> r == ThreadIdAfter(t, "KILL CONNECTION "))
      && (r != -1 ==>
            && IntMin <= r <= IntMax
            && exists p :: p in KillPrefixes && StartsWith(t, p) && LexicalCastInt(t[|p|..]) == Some(r))
  {
    var t := StripTrailingSpaces(query);
    assert KillPrefixes[1..][1..] == ["KILL "];
    assert KillPrefixes[1..] == ["KILL CONNECTION ", "KILL "];
    if StartsWith(t, "KILL QUERY ") || StartsWith(t, "KILL CONNECTION ") {
      assert t[..5] == "KILL ";
    }
  }

  /** A statement of the form prefix, digits: the digits are a thread id and no earlier prefix matches it. */
  lemma MatchDigits(p: string, n: nat)
    requires p in KillPrefixes && n <= IntMax
    ensures MatchKill(p + NatToString(n), KillPrefixes) == n
  {
    var d := NatToString(n);
    var t := p + d;
    assert t[..|p|] == p && t[|p|..] == d;
    IntToStringRoundTrip(n);
    assert KillPrefixes[1..] == ["KILL CONNECTION ", "KILL "];
    assert KillPrefixes[1..][1..] == ["KILL "];
    if p == "KILL CONNECTION " {
      assert t[5] == 'C';
      assert !StartsWith(t, "KILL QUERY ");
    } else if p == "KILL " {
      assert IsDigit(t[5]);
      assert !StartsWith(t, "KILL QUERY ");
      assert !StartsWith(t, "KILL CONNECTION ");
    }
  }

  /**
   * Round trip: each form of `KILL` with a non-negative `int` id, with any
   * number of trailing spaces, parses back to that id.
   */
  lemma ParseKillQueryRoundTrip(p: string, n: nat, k: nat)
    requires p in KillPrefixes && n <= IntMax
    ensures ParseKillQuery(p + IntToString(n) + Spaces(k)) == n
  {
    var d := NatToString(n);
    StripIgnoresSpaces(p + d, k);
    assert d[|d| - 1] != ' ' by {
      assert IsDigit(d[|d| - 1]);
    }
    assert (p + d)[|p + d| - 1] == d[|d| - 1];
    assert StripTrailingSpaces(p + d) == p + d;
    MatchDigits(p, n);
  }

  // ----- the client/thread registry -----

  /** A client connection's thread. */
  datatype ClientThreadId = ClientThreadId(clientId: string, threadId: int)

  /**
   * The registry: for each client thread, the user query it ran, named by
   * that query's user query id. Whether the query object is still alive is
   * decided outside the czar, so it comes in as the set of live query ids.
   */
  type Registry = map<ClientThreadId, nat>

  /** The registry with every entry whose query is gone removed. */
  function Purged(reg: Registry, live: set<nat>): Registry
  {
    map k | k in reg && reg[k] in live :: reg[k]
  }

  /** Purging keeps exactly the entries whose query is alive, unchanged, and a second purge changes nothing. */
  lemma PurgedMeaning(reg: Registry, live: set<nat>)
    ensures var p := Purged(reg, live);
      && (forall k :: k in p <==> k in reg && reg[k] in live)
      && (forall k :: k in p ==> p[k] == reg[k])
      && Purged(p, live) == p
  {
  }

  /** `std::map::insert`: a registered client thread keeps its entry; only a non-empty client and a thread id of 0 or more register. */
  function Register(reg: Registry, clientId: string, threadId: int, q: nat): Registry
  {
    var k := ClientThreadId(clientId, threadId);
    if clientId != "" && threadId >= 0 && k !in reg then reg[k := q] else reg
  }

  /** Registration adds at most the one entry and never replaces one. */
  lemma RegisterMeaning(reg: Registry, clientId: string, threadId: int, q: nat)
    ensures var r, k := Register(reg, clientId, threadId, q), ClientThreadId(clientId, threadId);
      && (forall j :: j in reg ==> j in r && r[j] == reg[j])
      && (forall j :: j in r && j !in reg ==> j == k && r[j] == q)
      && (k in r <==> k in reg || (clientId != "" && threadId >= 0))
  {
  }

  /** The message table of the `id`-th query. */
  function MessageTable(resultDb: string, id: nat): string
  {
    resultDb + ".message_" + NatToString(id)
  }

  /** Distinct query ids give distinct message tables in the same result database. */
  lemma MessageTablesDistinct(resultDb: string, a: nat, b: nat)
    requires a != b
    ensures MessageTable(resultDb, a) != MessageTable(resultDb, b)
  {
    var pre := resultDb + ".message_";
    assert MessageTable(resultDb, a)[|pre|..] == NatToString(a);
    assert MessageTable(resultDb, b)[|pre|..] == NatToString(b);
    if NatToString(a) == NatToString(b) {
      NatToStringInjective(a, b);
    }
  }

  /** What `killQuery` answers for a statement from a client, given the registry. */
  function KillReply(reg: Registry, query: string, clientId: string): string
  {
    var t := ParseKillQuery(query);
    if t < 0 then "Failed to parse query: " + query
    else if ClientThreadId(clientId, t) !in reg then "Unknown thread ID: " + query
    else ""
  }

  /** The query `killQuery` kills: the registered one, when it is still alive. */
  function KillTarget(reg: Registry, query: string, clientId: string, live: set<nat>): Option<nat>
  {
    var t := ParseKillQuery(query);
    var k := ClientThreadId(clientId, t);
    if t >= 0 && k in reg && reg[k] in live then Some(reg[k]) else None
  }

  /**
   * After a query from a client thread has been submitted and registered,
   * and while it is alive, `KILL QUERY` with that thread id from the same
   * client succeeds and kills it; a client thread that already had a live
   * query keeps its first registration.
   */
  lemma KillAfterSubmit(reg: Registry, live: set<nat>, clientId: string, threadId: nat, q: nat, k: nat)
    requires clientId != "" && threadId <= IntMax && q in live
    ensures var r := Register(Purged(reg, live), clientId, threadId, q);
      var stmt := "KILL QUERY " + IntToString(threadId) + Spaces(k);
      var key := ClientThreadId(clientId, threadId);
      && KillReply(r, stmt, clientId) == ""
      && KillTarget(r, stmt, clientId, live) == Some(if key in reg && reg[key] in live then reg[key] else q)
  {
    ParseKillQueryRoundTrip("KILL QUERY ", threadId, k);
  }

  /** A statement that does not parse is refused before the registry is consulted, and an unknown thread is reported as such. */
  lemma KillReplyMeaning(reg: Registry, query: string, clientId: string, live: set<nat>)
    ensures var t := ParseKillQuery(query);
      && (KillReply(reg, query, clientId) == "" <==> t >= 0 && ClientThreadId(clientId, t) in reg)
      && (t < 0 ==> KillReply(reg, query, clientId) == "Failed to parse query: " + query)
      && (KillTarget(reg, query, clientId, live).Some? ==> KillReply(reg, query, clientId) == "")
  {
    var t := ParseKillQuery(query);
    if t < 0 {
      assert |"Failed to parse query: " + query| > 0;
    } else if ClientThreadId(clientId, t) !in reg {
      assert |"Unknown thread ID: " + query| > 0;
    }
  }

  // ----- submission -----

  /** The query-hint lookup: an absent hint reads as the empty string. */
  function Hint(hints: map<string, string>, key: string): string
  {
    if key in hints then hints[key] else ""
  }

  /** The integer hint lookup: an absent hint, or one that is not an `int`, reads as `otherwise`. */
  function HintInt(hints: map<string, string>, key: string, otherwise: int): int
  {
    if key in hints && LexicalCastInt(hints[key]).Some? then LexicalCastInt(hints[key]).value else otherwise
  }

  /** What the query factory reports about a new user query. */
  datatype NewQuery = NewQuery(queryIdStr: string, error: string, resultTableName: string, orderBy: string)

  /** `SubmitResult`: the fields the proxy reads back. */
  datatype SubmitResult = SubmitResult(errorMessage: string, resultTable: string, messageTable: string, orderBy: string)

  /** `submitQuery`'s answer, given the message table lock's failure and the new query. */
  function SubmitReply(resultDb: string, id: nat, lockError: Option<string>, uq: NewQuery): SubmitResult
  {
    if lockError.Some? then SubmitResult(lockError.value, "", "", "")
    else if uq.error != "" then SubmitResult(uq.queryIdStr + " Failed to instantiate query: " + uq.error, "", "", "")
    else SubmitResult("", if uq.resultTableName != "" then resultDb + "." + uq.resultTableName else "",
                      MessageTable(resultDb, id), uq.orderBy)
  }

  /**
   * A submission the proxy can follow has no error message and names its own
   * message table; a failed one names none.
   */
  lemma SubmitReplyMeaning(resultDb: string, id: nat, lockError: Option<string>, uq: NewQuery)
    ensures var r := SubmitReply(resultDb, id, lockError, uq);
      && (lockError.None? && uq.error == "" <==> r.messageTable != "")
      && (r.messageTable != "" ==> r.messageTable == MessageTable(resultDb, id) && r.errorMessage == "")
      && (lockError.Some? ==> r.errorMessage == lockError.value)
  {
    var r := SubmitReply(resultDb, id, lockError, uq);
    if lockError.None? && uq.error == "" {
      assert |r.messageTable| > 0;
    }
  }

  /** The czar's query bookkeeping: the id counter and the client/thread registry. */
  class Czar {
    /** The user query id the next submission takes. */
    var idCounter: nat
    var clientToQuery: Registry

    /** The counter starts at the milliseconds since the epoch, modulo a year. */
    constructor (tvSec: nat, tvUsec: nat)
      ensures idCounter == (tvSec % (60 * 60 * 24 * 365)) * 1000 + tvUsec / 1000
      ensures clientToQuery == map[]
    {
      var year := 60 * 60 * 24 * 365;
      idCounter := (tvSec % year) * 1000 + tvUsec / 1000;
      clientToQuery := map[];
    }

    /** The cleanup loop: every entry whose query is gone is erased. */
    method PurgeExpired(live: set<nat>)
      modifies this
      ensures clientToQuery == Purged(old(clientToQuery), live)
      ensures idCounter == old(idCounter)
    {
      var todo := clientToQuery.Keys;
      ghost var reg := clientToQuery;
      while todo != {}
        invariant todo <= reg.Keys
        invariant clientToQuery == map k | k in reg && (k in todo || reg[k] in live) :: reg[k]
        invariant idCounter == old(idCounter)
        decreases |todo|
      {
        var k :| k in todo;
        if clientToQuery[k] !in live {
          clientToQuery := clientToQuery - {k};
        }
        todo := todo - {k};
      }
    }

    /**
     * `submitQuery`'s bookkeeping: the query takes the current counter value
     * as its id, the counter moves on, and a query that got past the lock
     * and the factory is registered for its client thread after the
     * registry is purged.
     */
    method SubmitQuery(hints: map<string, string>, resultDb: string, live: set<nat>,
                       lockError: Option<string>, uq: NewQuery) returns (result: SubmitResult)
      modifies this
      ensures idCounter == old(idCounter) + 1
      ensures result == SubmitReply(resultDb, old(idCounter), lockError, uq)
      ensures lockError.Some? || uq.error != "" ==> clientToQuery == old(clientToQuery)
      ensures lockError.None? && uq.error == "" ==>
        clientToQuery == Register(Purged(old(clientToQuery), live), Hint(hints, "client_dst_name"),
                                  HintInt(hints, "server_thread_id", -1), old(idCounter))
    {
      var clientId := Hint(hints, "client_dst_name");
      var threadId := HintInt(hints, "server_thread_id", -1);
      var userQueryId := idCounter;
      idCounter := idCounter + 1;
      var lockName := resultDb + ".message_" + NatToString(userQueryId);
      if lockError.Some? {
        return SubmitResult(lockError.value, "", "", "");
      }
      if uq.error != "" {
        return SubmitResult(uq.queryIdStr + " Failed to instantiate query: " + uq.error, "", "", "");
      }
      PurgeExpired(live);
      if clientId != "" && threadId >= 0 {
        var ctId := ClientThreadId(clientId, threadId);
        if ctId !in clientToQuery {
          clientToQuery := clientToQuery[ctId := userQueryId];
        }
      }
      var resultTable := "";
      if uq.resultTableName != "" {
        resultTable := resultDb + "." + uq.resultTableName;
      }
      result := SubmitResult("", resultTable, lockName, uq.orderBy);
    }

    /** `killQuery`: the reply, and the query to kill when its thread is registered and the query is still alive. */
    method KillQuery(query: string, clientId: string, live: set<nat>) returns (r: string, killed: Option<nat>)
      ensures r == KillReply(clientToQuery, query, clientId)
      ensures killed == KillTarget(clientToQuery, query, clientId, live)
    {
      var threadId := ParseKillQuery(query);
      if threadId < 0 {
        return "Failed to parse query: " + query, None;
      }
      var ctId := ClientThreadId(clientId, threadId);
      if ctId !in clientToQuery {
        return "Unknown thread ID: " + query, None;
      }
      var uq := clientToQuery[ctId];
      killed := if uq in live then Some(uq) else None;
      r := "";
    }
  }
}
