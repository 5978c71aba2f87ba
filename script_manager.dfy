/**
  The script manager: it owns the priority-ordered list of script mods and
  the optional developer console, and drives registration, commit, refresh,
  the per-frame update, the options window and the overlay.

  Every answer the engine, the console or the host would give during a call
  is a parameter of that call, one entry per record where the C++ code asks
  once per record; the entries for records it does not ask about are
  ignored.
 */
module ScriptManagement {
  import opened HostInterface
  import opened ModRecords
  import opened ScriptResults
  import opened ScriptMessages
  import opened Lifecycle
  import opened Presentation

  /** The commit loop: each record takes its commit step, first to last. */
  method CommitEach(mods0: seq<ModRecord>, created: seq<Option<Instantiation>>)
    returns (mods: seq<ModRecord>, logged: seq<LogEntry>)
    requires |created| == |mods0|
    ensures mods == Sweep(mods0, created, CommitRecord).mods
    ensures logged == Sweep(mods0, created, CommitRecord).logged
  {
    mods, logged := mods0, [];
    for i := 0 to |mods|
      invariant |mods| == |mods0|
      invariant mods == Sweep(mods0[..i], created[..i], CommitRecord).mods + mods0[i..]
      invariant logged == Sweep(mods0[..i], created[..i], CommitRecord).logged
    {
      SweepLoopStep(mods0, created, CommitRecord, i, mods);
      var t := CommitRecord(mods[i], created[i]);
      mods := mods[i := t.record];
      logged := logged + t.logged;
    }
    SweepWhole(mods0, created, CommitRecord);
  }

  /** The refresh loop: every record, enabled or not, gets its new script. */
  method RefreshEach(mods0: seq<ModRecord>, created: seq<Option<nat>>) returns (mods: seq<ModRecord>)
    requires |created| == |mods0|
    ensures mods == Sweep(mods0, created, RefreshRecord).mods
    ensures |mods| == |mods0|
    ensures forall i :: 0 <= i < |mods| ==> mods[i] == RefreshRecord(mods0[i], created[i]).record
  {
    mods := mods0;
    for i := 0 to |mods|
      invariant |mods| == |mods0|
      invariant mods == Sweep(mods0[..i], created[..i], RefreshRecord).mods + mods0[i..]
    {
      SweepLoopStep(mods0, created, RefreshRecord, i, mods);
      var t := RefreshRecord(mods[i], created[i]);
      mods := mods[i := t.record];
    }
    SweepWhole(mods0, created, RefreshRecord);
  }

  /** The console half of an update: every non-null console message, in order. */
  method ForwardConsole(messages: seq<Option<string>>) returns (logged: seq<LogEntry>)
    ensures logged == ConsoleLog(messages)
  {
    logged := [];
    for j := 0 to |messages|
      invariant logged == ConsoleLog(messages[..j])
    {
      assert messages[..j + 1][..j] == messages[..j];
      assert ConsoleLog(messages[..j + 1]) == ConsoleLog(messages[..j]) +
        (if messages[j].Some? then [ConsoleMessage(messages[j].value)] else []);
      if messages[j].Some? {
        logged := logged + [ConsoleMessage(messages[j].value)];
      }
    }
    assert messages[..|messages|] == messages;
  }

  /**
    The script half of an update: each record with a live script has its
    result checked and its new messages forwarded, first to last.
   */
  method UpdateEach(mods0: seq<ModRecord>, reports: seq<TickReport>)
    returns (mods: seq<ModRecord>, logged: seq<LogEntry>)
    requires |reports| == |mods0|
    ensures mods == Sweep(mods0, reports, UpdateRecord).mods
    ensures logged == Sweep(mods0, reports, UpdateRecord).logged
  {
    mods, logged := mods0, [];
    for i := 0 to |mods|
      invariant |mods| == |mods0|
      invariant mods == Sweep(mods0[..i], reports[..i], UpdateRecord).mods + mods0[i..]
      invariant logged == Sweep(mods0[..i], reports[..i], UpdateRecord).logged
    {
      SweepLoopStep(mods0, reports, UpdateRecord, i, mods);
      var r := mods[i];
      var t := Outcome(r, []);
      if r.script.Some? {
        var checked := TestScriptResult(r, reports[i].result);
        var forwarded, latest := ProcessMessages(r.name, r.messageTime, reports[i].messages);
        t := Outcome(checked.record.(messageTime := latest), checked.logged + forwarded);
      }
      UpdateRecordSteps(r, reports[i], t);
      mods := mods[i := t.record];
      logged := logged + t.logged;
    }
    SweepWhole(mods0, reports, UpdateRecord);
  }

  /**
    The panel loop of the options window: each record with a panel takes
    its checkbox click and contributes its panel, first to last.
   */
  method ToggleEach(mods0: seq<ModRecord>, clicked: seq<bool>)
    returns (mods: seq<ModRecord>, panels: seq<ModPanel>)
    requires |clicked| == |mods0|
    ensures mods == Toggled(mods0, clicked)
    ensures panels == Panels(mods)
  {
    mods, panels := mods0, [];
    for i := 0 to |mods|
      invariant |mods| == |mods0|
      invariant forall j :: 0 <= j < i ==> mods[j] == ToggleRecord(mods0[j], clicked[j])
      invariant forall j :: i <= j < |mods| ==> mods[j] == mods0[j]
      invariant panels == Panels(mods[..i])
    {
      var r := mods[i];
      // the checkbox step leaves a record without a panel as it is
      var r' := ToggleRecord(r, clicked[i]);
      mods := mods[i := r'];
      assert mods[..i + 1] == mods[..i] + [r'];
      assert mods[..i + 1][..i] == mods[..i];
      if HasPanel(r) {
        panels := panels + [PanelOf(r')];
      }
    }
    assert mods[..|mods|] == mods;
  }

  /** The overlay loop: the positions of the records with a live script. */
  method LiveScripts(mods: seq<ModRecord>) returns (scripts: seq<nat>)
    ensures scripts == LiveIndices(mods)
  {
    scripts := [];
    for i := 0 to |mods|
      invariant scripts == LiveIndices(mods[..i])
    {
      assert mods[..i + 1][..i] == mods[..i];
      if mods[i].script.Some? {
        scripts := scripts + [i];
      }
    }
    assert mods[..|mods|] == mods;
  }

  class ScriptManager {
    var mods: seq<ModRecord>
    var console: Option<nat>      // the developer console, once commit opened one
    var forceShowOptions: bool    // show the options window on every screen
    var showCursor: bool          // whether the manager last showed the cursor
    var log: seq<LogEntry>        // everything written to the host log
    var hostCalls: seq<HostCall>  // every call made into the host and the console

    /**
      The list is sorted by ascending priority with unique names, every live
      script carries its record's toggle, and the cursor calls alternate
      with `showCursor` recording the last one.
     */
    ghost predicate Valid()
      reads this
    {
      && SortedByPriority(mods)
      && UniqueNames(mods)
      && HandlesInSync(mods)
      && CursorAlternates(hostCalls)
      && showCursor == CursorShown(hostCalls)
    }

    /** No mods and no console: every drawing pass returns at once. */
    predicate Idle()
      reads this
    {
      |mods| == 0 && console.None?
    }

    constructor (forceShowOptions: bool)
      ensures Valid()
      ensures mods == [] && console == None && this.forceShowOptions == forceShowOptions
      ensures !showCursor && log == [] && hostCalls == []
    {
      mods := [];
      console := None;
      this.forceShowOptions := forceShowOptions;
      showCursor := false;
      log := [];
      hostCalls := [];
    }

    /**
      Registers a mod. A name already registered is refused and nothing
      changes. Otherwise the record goes after every record of priority at
      most its own and before every greater one, the other records keep
      their order, and an enabled mod tells the host that script mods exist.
     */
    method RegisterModWithScript(name: string, path: string, priority: int64, enabled: bool)
      returns (ok: bool)
      requires Valid()
      modifies this`mods, this`hostCalls
      ensures Valid()
      ensures ok <==> !HasName(old(mods), name)
      ensures !ok ==> mods == old(mods)
      ensures ok ==> mods == Inserted(old(mods), NewRecord(name, path, priority, enabled))
      ensures ok ==> var k := UpperBound(old(mods), priority);
        && |mods| == |old(mods)| + 1
        && mods[k] == NewRecord(name, path, priority, enabled)
        && Without(mods, k) == old(mods)
      ensures hostCalls == old(hostCalls) + (if ok && enabled then [RegisterScriptModType] else [])
    {
      if HasName(mods, name) {
        return false;
      }
      var r := NewRecord(name, path, priority, enabled);
      InsertedKeepsNamesUnique(mods, r);
      InsertedKeepsHandlesInSync(mods, r);
      mods := Inserted(mods, r);
      if enabled {
        AppendOtherCalls(hostCalls, [RegisterScriptModType]);
        hostCalls := hostCalls + [RegisterScriptModType];
      }
      return true;
    }

    /**
      Instantiates the scripts. The console is opened (and its history
      loaded and bounded) exactly when speedrun mode is off and the console
      setting is on. Each record then takes its commit step, in list order.
     */
    method CommitScripts(speedrunMode: bool, enableConsole: bool, historySize: int,
                         createdConsole: Option<nat>, created: seq<Option<Instantiation>>)
      requires Valid() && |created| == |mods|
      modifies this`console, this`hostCalls, this`mods, this`log
      ensures Valid()
      ensures var opens := !speedrunMode && enableConsole;
        && console == (if opens then createdConsole else old(console))
        && hostCalls == old(hostCalls) +
             (if opens then [LoadHistory(HistoryFile), SetMaxHistorySize(historySize)] else [])
      ensures mods == Sweep(old(mods), created, CommitRecord).mods
      ensures log == old(log) + Sweep(old(mods), created, CommitRecord).logged
    {
      if !speedrunMode && enableConsole {
        console := createdConsole;
        AppendOtherCalls(hostCalls, [LoadHistory(HistoryFile), SetMaxHistorySize(historySize)]);
        hostCalls := hostCalls + [LoadHistory(HistoryFile), SetMaxHistorySize(historySize)];
      }
      var ms, logged := CommitEach(mods, created);
      CommitKeepsLayout(mods, created);
      SameLayoutKeepsOrder(mods, ms);
      mods, log := ms, log + logged;
    }

    /**
      Reloads every script, enabled or not: each record gets the script the
      engine creates now with its current toggle, and its last error is
      cleared. The list keeps its order, names, priorities and toggles.
     */
    method RefreshScripts(created: seq<Option<nat>>)
      requires Valid() && |created| == |mods|
      modifies this`mods
      ensures Valid()
      ensures mods == Sweep(old(mods), created, RefreshRecord).mods
    {
      var ms := RefreshEach(mods, created);
      RefreshKeepsLayout(mods, created);
      SameLayoutKeepsOrder(mods, ms);
      mods := ms;
    }

    /**
      One frame of updates. With a console, its non-null messages are
      forwarded first. Then every record with a live script, in list order,
      has its result checked and its new messages forwarded, and its message
      time moves to the newest of them; the other records are untouched.
     */
    method Update(consoleMessages: seq<Option<string>>, reports: seq<TickReport>)
      requires Valid() && |reports| == |mods|
      modifies this`mods, this`log
      ensures Valid()
      ensures mods == Sweep(old(mods), reports, UpdateRecord).mods
      ensures log == old(log) + (if console.Some? then ConsoleLog(consoleMessages) else [])
                              + Sweep(old(mods), reports, UpdateRecord).logged
    {
      if console.Some? {
        var forwarded := ForwardConsole(consoleMessages);
        log := log + forwarded;
      }
      var ms, logged := UpdateEach(mods, reports);
      UpdateKeepsLayout(mods, reports);
      SameLayoutKeepsOrder(mods, ms);
      mods, log := ms, log + logged;
    }

    /**
      Whether the options window is wanted this frame: never while idle,
      otherwise when forced or on the menu screen.
     */
    function NeedsWindowDraw(screen: Screen): (r: bool)
      reads this
      ensures Idle() ==> !r
      ensures !Idle() ==> (r <==> forceShowOptions || screen == Menu)
    {
      if Idle() then false else forceShowOptions || screen == Menu
    }

    /**
      The options window for one frame. While idle nothing happens. When the
      window is wanted, the cursor is shown (a show call only if it was
      hidden), each record with a panel takes its checkbox click, and the
      panels are returned; otherwise the cursor is hidden (a hide call only
      if it was shown) and no record changes.
     */
    method WindowDraw(screen: Screen, clicked: seq<bool>) returns (consoleOptions: bool, panels: seq<ModPanel>)
      requires Valid() && |clicked| == |mods|
      modifies this`mods, this`showCursor, this`hostCalls
      ensures Valid()
      ensures old(Idle()) ==>
        && mods == old(mods) && showCursor == old(showCursor) && hostCalls == old(hostCalls)
        && !consoleOptions && panels == []
      ensures !old(Idle()) ==> showCursor == old(NeedsWindowDraw(screen))
      ensures !old(Idle()) && old(NeedsWindowDraw(screen)) ==>
        && hostCalls == old(hostCalls) + (if old(showCursor) then [] else [ShowCursor])
        && mods == Toggled(old(mods), clicked)
        && consoleOptions == console.Some?
        && panels == Panels(mods)
      ensures !old(Idle()) && !old(NeedsWindowDraw(screen)) ==>
        && hostCalls == old(hostCalls) + (if old(showCursor) then [HideCursor] else [])
        && mods == old(mods)
        && !consoleOptions && panels == []
    {
      consoleOptions, panels := false, [];
      if Idle() {
        return;
      }
      if forceShowOptions || screen == Menu {
        if !showCursor {
          AppendCursorCall(hostCalls, true);
          hostCalls := hostCalls + [ShowCursor];
          showCursor := true;
        }
        consoleOptions := console.Some?;
        var ms;
        ms, panels := ToggleEach(mods, clicked);
        SameLayoutKeepsOrder(mods, ms);
        mods := ms;
      } else if showCursor {
        AppendCursorCall(hostCalls, false);
        hostCalls := hostCalls + [HideCursor];
        showCursor := false;
      }
    }

    /**
      The overlay for one frame. While idle nothing is drawn. Otherwise the
      online warning shows exactly on the online screen with some toggle on;
      the console draws, saving its history when it has new history; and
      every record with a live script draws, whatever its toggle.
     */
    method Draw(screen: Screen, consoleHasNewHistory: bool) returns (overlay: Overlay)
      requires Valid()
      modifies this`hostCalls
      ensures Valid()
      ensures Idle() ==> overlay == NothingToDraw
      ensures !Idle() ==>
        overlay == Overlay(screen == Online && AnyScriptEnabled(mods), console.Some?, LiveIndices(mods))
      ensures hostCalls == old(hostCalls) +
        (if !Idle() && console.Some? && consoleHasNewHistory then [SaveHistory(HistoryFile)] else [])
    {
      if Idle() {
        return NothingToDraw;
      }
      var warning := screen == Online && AnyScriptEnabled(mods);
      if console.Some? && consoleHasNewHistory {
        AppendOtherCalls(hostCalls, [SaveHistory(HistoryFile)]);
        hostCalls := hostCalls + [SaveHistory(HistoryFile)];
      }
      var scripts := LiveScripts(mods);
      return Overlay(warning, console.Some?, scripts);
    }

    /** Whether the console is toggled open: the console's answer, or false without one. */
    function IsConsoleToggled(consoleToggled: bool): (r: bool)
      reads this
      ensures console.None? ==> !r
      ensures console.Some? ==> r == consoleToggled
    {
      if console.Some? then consoleToggled else false
    }

    /** Toggles the console when there is one, and does nothing otherwise. */
    method ToggleConsole()
      requires Valid()
      modifies this`hostCalls
      ensures Valid()
      ensures hostCalls == old(hostCalls) + (if console.Some? then [ConsoleToggle] else [])
    {
      if console.Some? {
        AppendOtherCalls(hostCalls, [ConsoleToggle]);
        hostCalls := hostCalls + [ConsoleToggle];
      }
    }
  }
}
