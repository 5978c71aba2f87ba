/**
  The diagnostic check a record runs after its script is created or
  updated: the engine's last result string is logged as a Lua error unless
  it is null, one of the two success sentinels, or the error logged last.
 */
module ScriptResults {
  import opened HostInterface
  import opened ModRecords

  /** The result strings the engine uses for success; they are never logged. */
  predicate IsSentinel(s: string)
  {
    s == "Got metadata" || s == "OK"
  }

  /** A record after one step, with the log lines the step wrote. */
  datatype Outcome = Outcome(record: ModRecord, logged: seq<LogEntry>)

  /**
    Checks the result `result` the engine reports for `r`'s script. Only
    `lastResult` can change; at most one error is logged, and exactly when
    the script is live and the result is a non-null, non-sentinel string
    other than the one logged last, which then becomes `lastResult`.
   */
  function TestScriptResult(r: ModRecord, result: Option<string>): (t: Outcome)
    ensures t.record == r.(lastResult := t.record.lastResult)
    ensures t.logged == [] || t.logged == [LuaError(r.name, t.record.lastResult)]
    ensures t.logged != [] <==> t.record.lastResult != r.lastResult
    ensures t.logged != [] <==>
      r.script.Some? && result.Some? && !IsSentinel(result.value) && result.value != r.lastResult
    ensures t.logged != [] ==> Some(t.record.lastResult) == result
  {
    if r.script.Some? && result.Some? && !IsSentinel(result.value) && result.value != r.lastResult then
      Outcome(r.(lastResult := result.value), [LuaError(r.name, result.value)])
    else
      Outcome(r, [])
  }

  /** The log written by running the check on a live script once per result, in order. */
  function Replay(r: ModRecord, results: seq<Option<string>>): seq<LogEntry>
    decreases |results|
  {
    if |results| == 0 then []
    else
      var t := TestScriptResult(r, results[0]);
      t.logged + Replay(t.record, results[1..])
  }

  /** The results that count as errors: non-null and not a sentinel. */
  function Significant(results: seq<Option<string>>): (errs: seq<string>)
    ensures |errs| <= |results|
    ensures forall e :: e in errs ==> !IsSentinel(e) && Some(e) in results
    ensures forall s :: Some(s) in results && !IsSentinel(s) ==> s in errs
  {
    if |results| == 0 then []
    else
      assert results == [results[0]] + results[1..];
      if results[0].Some? && !IsSentinel(results[0].value) then
        [results[0].value] + Significant(results[1..])
      else Significant(results[1..])
  }

  /** The significant results of a stream keep the stream's order: a split stream yields its parts in turn. */
  lemma {:induction false} SignificantAppend(a: seq<Option<string>>, b: seq<Option<string>>)
    ensures Significant(a + b) == Significant(a) + Significant(b)
    decreases |a|
  {
    if |a| > 0 {
      assert (a + b)[0] == a[0] && (a + b)[1..] == a[1..] + b;
      SignificantAppend(a[1..], b);
    } else {
      assert a + b == b;
    }
  }

  /** `xs` with every element equal to the one before it dropped, the first compared with `last`. */
  function Collapse(last: string, xs: seq<string>): seq<string>
    decreases |xs|
  {
    if |xs| == 0 then []
    else if xs[0] == last then Collapse(last, xs[1..])
    else [xs[0]] + Collapse(xs[0], xs[1..])
  }

  function LuaErrors(name: string, errs: seq<string>): seq<LogEntry>
  {
    seq(|errs|, i requires 0 <= i < |errs| => LuaError(name, errs[i]))
  }

  /**
    Feeding a live script's results through the check logs exactly the
    significant results with consecutive repeats collapsed: a repeat is
    suppressed only when no other error was logged in between.
   */
  lemma {:induction false} ReplayCollapsesRepeats(r: ModRecord, results: seq<Option<string>>)
    requires r.script.Some?
    ensures Replay(r, results) == LuaErrors(r.name, Collapse(r.lastResult, Significant(results)))
    decreases |results|
  {
    if |results| > 0 {
      var t := TestScriptResult(r, results[0]);
      assert Replay(r, results) == t.logged + Replay(t.record, results[1..]);
      ReplayCollapsesRepeats(t.record, results[1..]);
      ReplayHead(r, results);
    }
  }

  /** The head of a replay: what the first result logs, and what it leaves behind. */
  lemma ReplayHead(r: ModRecord, results: seq<Option<string>>)
    requires r.script.Some? && |results| > 0
    ensures var t := TestScriptResult(r, results[0]);
      t.logged + LuaErrors(r.name, Collapse(t.record.lastResult, Significant(results[1..])))
      == LuaErrors(r.name, Collapse(r.lastResult, Significant(results)))
  {
    var rest := Significant(results[1..]);
    if results[0].Some? && !IsSentinel(results[0].value) {
      var e := results[0].value;
      assert Significant(results) == [e] + rest;
      CollapseCons(r.lastResult, e, rest);
      if e != r.lastResult {
        LuaErrorsCons(r.name, e, Collapse(e, rest));
      }
    }
  }

  lemma CollapseCons(last: string, e: string, rest: seq<string>)
    ensures Collapse(last, [e] + rest) == if e == last then Collapse(last, rest) else [e] + Collapse(e, rest)
  {
    assert ([e] + rest)[0] == e && ([e] + rest)[1..] == rest;
  }

  lemma LuaErrorsCons(name: string, e: string, rest: seq<string>)
    ensures LuaErrors(name, [e] + rest) == [LuaError(name, e)] + LuaErrors(name, rest)
  {
  }

  /** No two adjacent elements are equal, and the first differs from `last`. */
  predicate NoRepeats(last: string, xs: seq<string>)
  {
    (|xs| > 0 ==> xs[0] != last) &&
    forall i :: 0 < i < |xs| ==> xs[i] != xs[i - 1]
  }

  /** What Collapse keeps has no repeats, and nothing is kept that was not there. */
  lemma {:induction false} CollapseHasNoRepeats(last: string, xs: seq<string>)
    ensures NoRepeats(last, Collapse(last, xs))
    ensures forall e :: e in Collapse(last, xs) ==> e in xs
    decreases |xs|
  {
    if |xs| > 0 {
      if xs[0] == last {
        CollapseHasNoRepeats(last, xs[1..]);
      } else {
        CollapseHasNoRepeats(xs[0], xs[1..]);
        var rest := Collapse(xs[0], xs[1..]);
        assert [xs[0]] + rest == Collapse(last, xs);
        forall i | 0 < i < |[xs[0]] + rest|
          ensures ([xs[0]] + rest)[i] != ([xs[0]] + rest)[i - 1]
        {
          if i > 1 {
            assert ([xs[0]] + rest)[i] == rest[i - 1];
          }
        }
      }
    }
  }

  /** Only repeats are dropped: a stream without repeats comes through whole. */
  lemma {:induction false} CollapseKeepsNonRepeats(last: string, xs: seq<string>)
    requires NoRepeats(last, xs)
    ensures Collapse(last, xs) == xs
    decreases |xs|
  {
    if |xs| > 0 {
      assert NoRepeats(xs[0], xs[1..]) by {
        forall i | 0 < i < |xs[1..]| ensures xs[1..][i] != xs[1..][i - 1] {
          assert xs[1..][i] == xs[i + 1] && xs[1..][i - 1] == xs[i];
        }
      }
      CollapseKeepsNonRepeats(xs[0], xs[1..]);
      assert [xs[0]] + xs[1..] == xs;
    }
  }

  /** Sentinels never reach the log, whatever the results. */
  lemma SentinelsNeverLogged(r: ModRecord, results: seq<Option<string>>)
    requires r.script.Some?
    ensures forall e :: e in Replay(r, results) ==> e.LuaError? && !IsSentinel(e.text)
  {
    ReplayCollapsesRepeats(r, results);
    CollapseHasNoRepeats(r.lastResult, Significant(results));
  }

  /** Two sentinels in front of a stream add nothing to its significant results. */
  lemma SentinelsSkipped(x: Option<string>, y: Option<string>, rest: seq<Option<string>>)
    requires x.Some? && IsSentinel(x.value) && y.Some? && IsSentinel(y.value)
    ensures Significant([x, y] + rest) == Significant(rest)
  {
    assert ([x, y] + rest)[1..] == [y] + rest;
    assert ([y] + rest)[1..] == rest;
  }

  /** An error in front of a stream leads its significant results. */
  lemma ErrorKept(e: string, rest: seq<Option<string>>)
    requires !IsSentinel(e)
    ensures Significant([Some(e)] + rest) == [e] + Significant(rest)
  {
    assert ([Some(e)] + rest)[1..] == rest;
  }

  /** Two errors in a row are both significant, in order. */
  lemma TwoErrors(x: string, y: string)
    requires !IsSentinel(x) && !IsSentinel(y)
    ensures Significant([Some(x), Some(y)]) == [x, y]
  {
    assert Significant([]) == [];
    ErrorKept(y, []);
    assert [Some(y)] + [] == [Some(y)];
    ErrorKept(x, [Some(y)]);
    assert [Some(x)] + [Some(y)] == [Some(x), Some(y)];
  }

  /** Three errors in a row are all significant, in order. */
  lemma ThreeErrors(x: string, y: string, z: string)
    requires !IsSentinel(x) && !IsSentinel(y) && !IsSentinel(z)
    ensures Significant([Some(x), Some(y), Some(z)]) == [x, y, z]
  {
    TwoErrors(y, z);
    ErrorKept(x, [Some(y), Some(z)]);
    assert [Some(x)] + [Some(y), Some(z)] == [Some(x), Some(y), Some(z)];
  }

  lemma SignificantOfSentinelExample(a: string, b: string, results: seq<Option<string>>)
    requires !IsSentinel(a) && !IsSentinel(b)
    requires results == [Some("OK"), Some("Got metadata"), Some(a), Some(a), Some(b)]
    ensures Significant(results) == [a, a, b]
  {
    assert IsSentinel("OK") && IsSentinel("Got metadata");
    assert results == [Some("OK"), Some("Got metadata")] + [Some(a), Some(a), Some(b)];
    SentinelsSkipped(Some("OK"), Some("Got metadata"), [Some(a), Some(a), Some(b)]);
    ThreeErrors(a, a, b);
  }

  /**
    Results "OK", "Got metadata", A, A, B log A and B once each (A and B
    distinct errors, A not the error logged last).
   */
  lemma ReplaySentinelExample(r: ModRecord, a: string, b: string, results: seq<Option<string>>)
    requires r.script.Some? && r.lastResult != a
    requires !IsSentinel(a) && !IsSentinel(b) && a != b
    requires results == [Some("OK"), Some("Got metadata"), Some(a), Some(a), Some(b)]
    ensures Replay(r, results) == [LuaError(r.name, a), LuaError(r.name, b)]
  {
    SignificantOfSentinelExample(a, b, results);
    assert Collapse(r.lastResult, [a, a, b]) == [a, b] by {
      assert Collapse(a, [b]) == [b];
      assert Collapse(a, [a, b]) == [b];
    }
    assert LuaErrors(r.name, [a, b]) == [LuaError(r.name, a), LuaError(r.name, b)];
    ReplayCollapsesRepeats(r, results);
  }

  lemma SignificantOfAlternationExample(a: string, b: string, results: seq<Option<string>>)
    requires !IsSentinel(a) && !IsSentinel(b)
    requires results == [Some(a), Some(a), Some(b), Some(a)]
    ensures Significant(results) == [a, a, b, a]
  {
    assert results == [Some(a), Some(a)] + [Some(b), Some(a)];
    SignificantAppend([Some(a), Some(a)], [Some(b), Some(a)]);
    TwoErrors(a, a);
    TwoErrors(b, a);
    assert [a, a] + [b, a] == [a, a, b, a];
  }

  /** Only consecutive repeats are suppressed: results A, A, B, A log A, B, A. */
  lemma ReplayAlternationExample(r: ModRecord, a: string, b: string, results: seq<Option<string>>)
    requires r.script.Some? && r.lastResult != a
    requires !IsSentinel(a) && !IsSentinel(b) && a != b
    requires results == [Some(a), Some(a), Some(b), Some(a)]
    ensures Replay(r, results) == [LuaError(r.name, a), LuaError(r.name, b), LuaError(r.name, a)]
  {
    SignificantOfAlternationExample(a, b, results);
    assert Collapse(r.lastResult, [a, a, b, a]) == [a, b, a] by {
      assert Collapse(b, [a]) == [a];
      assert Collapse(a, [b, a]) == [b, a];
      assert Collapse(a, [a, b, a]) == [b, a];
    }
    assert LuaErrors(r.name, [a, b, a]) == [LuaError(r.name, a), LuaError(r.name, b), LuaError(r.name, a)];
    ReplayCollapsesRepeats(r, results);
  }
}
