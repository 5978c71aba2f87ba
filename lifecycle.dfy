/**
  What commit, refresh and update do to one record, and a sweep that applies
  such a step to every record in list order, concatenating what each step
  logs. The manager's loops are proved against these.
 */
module Lifecycle {
  import opened HostInterface
  import opened ModRecords
  import opened ScriptResults
  import opened ScriptMessages

  /** A list laid out like a sorted list with unique names is itself sorted with unique names. */
  lemma SameLayoutKeepsOrder(a: seq<ModRecord>, b: seq<ModRecord>)
    requires SameLayout(a, b)
    requires SortedByPriority(a) && UniqueNames(a)
    ensures SortedByPriority(b) && UniqueNames(b)
  {
    assert forall i :: 0 <= i < |a| ==> a[i].priority == b[i].priority && a[i].name == b[i].name;
  }

  /** A list of records after a sweep, with everything the sweep logged. */
  datatype Pass = Pass(mods: seq<ModRecord>, logged: seq<LogEntry>)

  /** Applies `step` to each record with its own input, first to last. */
  function Sweep<X>(mods: seq<ModRecord>, inputs: seq<X>, step: (ModRecord, X) -> Outcome): (p: Pass)
    requires |inputs| == |mods|
    ensures |p.mods| == |mods|
    ensures forall i :: 0 <= i < |mods| ==> p.mods[i] == step(mods[i], inputs[i]).record
    decreases |mods|
  {
    if |mods| == 0 then Pass([], [])
    else
      var n := |mods| - 1;
      var prev := Sweep(mods[..n], inputs[..n], step);
      var t := step(mods[n], inputs[n]);
      Pass(prev.mods + [t.record], prev.logged + t.logged)
  }

  /** One more record swept: the sweep of a prefix extends by that record's step. */
  lemma SweepStep<X>(mods: seq<ModRecord>, inputs: seq<X>, step: (ModRecord, X) -> Outcome, i: nat)
    requires |inputs| == |mods| && i < |mods|
    ensures var prev := Sweep(mods[..i], inputs[..i], step);
            var t := step(mods[i], inputs[i]);
            Sweep(mods[..i + 1], inputs[..i + 1], step) == Pass(prev.mods + [t.record], prev.logged + t.logged)
  {
    assert mods[..i + 1][..i] == mods[..i];
    assert inputs[..i + 1][..i] == inputs[..i];
  }

  /**
    The loop form of a sweep: a list whose first `i` records have been
    stepped and whose others are untouched, with record `i` stepped next.
   */
  lemma SweepLoopStep<X>(mods0: seq<ModRecord>, inputs: seq<X>, step: (ModRecord, X) -> Outcome,
                         i: nat, mods: seq<ModRecord>)
    requires |inputs| == |mods0| && i < |mods0|
    requires mods == Sweep(mods0[..i], inputs[..i], step).mods + mods0[i..]
    ensures mods[i] == mods0[i]
    ensures mods[i := step(mods[i], inputs[i]).record]
         == Sweep(mods0[..i + 1], inputs[..i + 1], step).mods + mods0[i + 1..]
    ensures Sweep(mods0[..i + 1], inputs[..i + 1], step).logged
         == Sweep(mods0[..i], inputs[..i], step).logged + step(mods0[i], inputs[i]).logged
  {
    SweepStep(mods0, inputs, step, i);
    var prev := Sweep(mods0[..i], inputs[..i], step).mods;
    assert |prev| == i;
    assert mods[i] == mods0[i];
    assert mods0[i..] == [mods0[i]] + mods0[i + 1..];
  }

  /** A sweep of the whole list is the sweep of its full prefix. */
  lemma SweepWhole<X>(mods0: seq<ModRecord>, inputs: seq<X>, step: (ModRecord, X) -> Outcome)
    requires |inputs| == |mods0|
    ensures Sweep(mods0[..|mods0|], inputs[..|mods0|], step) == Sweep(mods0, inputs, step)
    ensures Sweep(mods0[..0], inputs[..0], step) == Pass([], [])
  {
    assert mods0[..|mods0|] == mods0 && inputs[..|mods0|] == inputs;
  }

  /**
    Commit for one record. A disabled record is left alone. An enabled one
    gets the script the engine created for it (created disabled), or no
    script when creation failed. For a created script the result is checked,
    the unsafe bit is copied from its metadata, and an unsafe script has its
    toggle forced off; otherwise the toggle is handed to the script.
   */
  function CommitRecord(r: ModRecord, created: Option<Instantiation>): (t: Outcome)
    ensures SameRegistration(r, t.record)
    ensures !r.enabled ==> t == Outcome(r, [])
    ensures r.enabled ==> (t.record.script.Some? <==> created.Some?)
    ensures r.enabled && created.None? ==> t == Outcome(r.(script := None), [])
    ensures r.enabled && created.Some? ==>
      && t.record.script.value.id == created.value.id
      && t.record.unsafe == created.value.unsafe
      && t.record.scriptEnabled == (r.scriptEnabled && !created.value.unsafe)
      && t.record.messageTime == r.messageTime
      && t.record.lastResult
         == TestScriptResult(r.(script := Some(Script(created.value.id, false))), created.value.result).record.lastResult
      && t.logged == TestScriptResult(r.(script := Some(Script(created.value.id, false))), created.value.result).logged
    ensures r.enabled ==> InSync(t.record)
    ensures InSync(r) ==> InSync(t.record)
  {
    if !r.enabled then Outcome(r, [])
    else match created
      case None => Outcome(r.(script := None), [])
      case Some(c) =>
        var checked := TestScriptResult(r.(script := Some(Script(c.id, false))), c.result);
        var s := checked.record.(unsafe := c.unsafe);
        if c.unsafe then Outcome(s.(scriptEnabled := false), checked.logged)
        else Outcome(s.(script := Some(Script(c.id, s.scriptEnabled))), checked.logged)
  }

  /** An unsafe script ends commit with its toggle off, whatever it was registered with. */
  lemma CommitDisablesUnsafe(mods: seq<ModRecord>, created: seq<Option<Instantiation>>, i: nat)
    requires |created| == |mods| && i < |mods|
    requires mods[i].enabled && created[i].Some? && created[i].value.unsafe
    ensures var after := Sweep(mods, created, CommitRecord).mods[i];
            after.unsafe && !after.scriptEnabled && after.script.Some? && !after.script.value.enabled
  {
  }

  /**
    Refresh for one record, enabled or not: the script is replaced by the
    one the engine creates now, started with the record's current toggle
    (or none, when creation fails), and the last error is forgotten.
   */
  function RefreshRecord(r: ModRecord, created: Option<nat>): (t: Outcome)
    ensures t.logged == []
    ensures t.record == r.(script := t.record.script, lastResult := "")
    ensures t.record.script.Some? <==> created.Some?
    ensures created.Some? ==> t.record.script.value == Script(created.value, r.scriptEnabled)
    ensures InSync(t.record)
  {
    var script := match created
      case None => None
      case Some(id) => Some(Script(id, r.scriptEnabled));
    Outcome(r.(script := script, lastResult := ""), [])
  }

  /**
    Update for one record. A record without a script is left alone. For a
    live script the result is checked, then the messages newer than the old
    message time are forwarded, and the message time moves to the newest of
    them.
   */
  function UpdateRecord(r: ModRecord, report: TickReport): (t: Outcome)
    ensures r.script.None? ==> t == Outcome(r, [])
    ensures t.record == r.(lastResult := t.record.lastResult, messageTime := t.record.messageTime)
    ensures t.record.messageTime >= r.messageTime
    ensures r.script.Some? ==>
      var kept := Kept(report.messages, r.messageTime);
      && t.record.lastResult == TestScriptResult(r, report.result).record.lastResult
      && t.record.messageTime == LatestTime(r.messageTime, kept)
      && t.logged == TestScriptResult(r, report.result).logged + Announced(r.name, kept)
  {
    if r.script.None? then Outcome(r, [])
    else
      var checked := TestScriptResult(r, report.result);
      var kept := Kept(report.messages, r.messageTime);
      LatestTimeIsMaximum(r.messageTime, kept);
      Outcome(checked.record.(messageTime := LatestTime(r.messageTime, kept)),
             checked.logged + Announced(r.name, kept))
  }

  /** The update of one record, in the steps the update loop takes. */
  lemma UpdateRecordSteps(r: ModRecord, report: TickReport, t: Outcome)
    requires r.script.None? ==> t == Outcome(r, [])
    requires r.script.Some? ==>
      var checked := TestScriptResult(r, report.result);
      var kept := Kept(report.messages, r.messageTime);
      t == Outcome(checked.record.(messageTime := LatestTime(r.messageTime, kept)),
                  checked.logged + Announced(r.name, kept))
    ensures t == UpdateRecord(r, report)
  {
  }

  /** Commit keeps the layout of the list, and every live script in sync. */
  lemma CommitKeepsLayout(mods: seq<ModRecord>, created: seq<Option<Instantiation>>)
    requires |created| == |mods| && HandlesInSync(mods)
    ensures SameLayout(mods, Sweep(mods, created, CommitRecord).mods)
    ensures HandlesInSync(Sweep(mods, created, CommitRecord).mods)
  {
    var after := Sweep(mods, created, CommitRecord).mods;
    forall r | r in after ensures InSync(r) {
      var i :| 0 <= i < |after| && after[i] == r;
      assert mods[i] in mods;
    }
  }

  /**
    Refresh keeps the layout, every toggle and message time, gives every
    record (enabled or not) the script just created for it, and clears every
    last error.
   */
  lemma RefreshKeepsLayout(mods: seq<ModRecord>, created: seq<Option<nat>>)
    requires |created| == |mods|
    ensures var after := Sweep(mods, created, RefreshRecord);
      && SameLayout(mods, after.mods)
      && HandlesInSync(after.mods)
      && after.logged == []
      && forall i :: 0 <= i < |mods| ==>
           && after.mods[i].scriptEnabled == mods[i].scriptEnabled
           && after.mods[i].messageTime == mods[i].messageTime
           && after.mods[i].lastResult == ""
           && (after.mods[i].script.Some? <==> created[i].Some?)
    decreases |mods|
  {
    if |mods| > 0 {
      var n := |mods| - 1;
      RefreshKeepsLayout(mods[..n], created[..n]);
    }
  }

  /** Update keeps the layout and the scripts, and no message time decreases. */
  lemma UpdateKeepsLayout(mods: seq<ModRecord>, reports: seq<TickReport>)
    requires |reports| == |mods| && HandlesInSync(mods)
    ensures var after := Sweep(mods, reports, UpdateRecord).mods;
      && SameLayout(mods, after)
      && HandlesInSync(after)
      && forall i :: 0 <= i < |mods| ==>
           after[i].script == mods[i].script && after[i].messageTime >= mods[i].messageTime
  {
    var after := Sweep(mods, reports, UpdateRecord).mods;
    forall r | r in after ensures InSync(r) {
      var i :| 0 <= i < |after| && after[i] == r;
      assert mods[i] in mods;
    }
  }
}
