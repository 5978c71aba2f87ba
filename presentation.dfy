/**
  The decisions behind the manager's two drawing passes, without the
  widgets: which records get an options panel and what the panel holds,
  what a checkbox click does to a record, which scripts draw on the overlay
  and when the online warning shows.
 */
module Presentation {
  import opened HostInterface
  import opened ModRecords

  /** A record gets an options panel when it is enabled and has a live script. */
  predicate HasPanel(r: ModRecord)
  {
    r.script.Some? && r.enabled
  }

  /**
    One checkbox frame for `r`: when its panel is shown and the box was
    clicked, the toggle flips and the new value is handed to the script at
    once. Nothing else about the record changes.
   */
  function ToggleRecord(r: ModRecord, clicked: bool): (r': ModRecord)
    ensures r' == r.(scriptEnabled := r'.scriptEnabled, script := r'.script)
    ensures HasPanel(r) && clicked ==>
      r'.scriptEnabled == !r.scriptEnabled && r'.script == Some(r.script.value.(enabled := r'.scriptEnabled))
    ensures !(HasPanel(r) && clicked) ==> r' == r
    ensures SameRegistration(r, r')
    ensures InSync(r) ==> InSync(r')
  {
    if HasPanel(r) && clicked then
      r.(scriptEnabled := !r.scriptEnabled, script := Some(r.script.value.(enabled := !r.scriptEnabled)))
    else r
  }

  /** One frame of checkbox clicks applied to every record, `clicked[i]` to record `i`. */
  function Toggled(mods: seq<ModRecord>, clicked: seq<bool>): (ms: seq<ModRecord>)
    requires |clicked| == |mods|
    ensures |ms| == |mods|
    ensures forall i :: 0 <= i < |mods| ==> ms[i] == ToggleRecord(mods[i], clicked[i])
    ensures SameLayout(mods, ms)
    ensures HandlesInSync(mods) ==> HandlesInSync(ms)
    ensures forall i :: 0 <= i < |mods| ==> HasPanel(ms[i]) == HasPanel(mods[i])
  {
    var ms := seq(|mods|, i requires 0 <= i < |mods| => ToggleRecord(mods[i], clicked[i]));
    assert forall r :: r in ms ==> exists i :: 0 <= i < |mods| && r == ToggleRecord(mods[i], clicked[i]) && mods[i] in mods;
    ms
  }

  /** What one mod's options panel shows besides its name, version and author. */
  datatype ModPanel = ModPanel(modName: string, unsafeWarning: bool, scriptOptions: bool)

  /**
    The panel for `r`: the unsafe warning while an unsafe script is off,
    the script's own options while it is on; never both.
   */
  function PanelOf(r: ModRecord): (p: ModPanel)
    ensures p.modName == r.name
    ensures p.unsafeWarning <==> r.unsafe && !r.scriptEnabled
    ensures p.scriptOptions <==> r.scriptEnabled
    ensures !(p.unsafeWarning && p.scriptOptions)
  {
    ModPanel(r.name, r.unsafe && !r.scriptEnabled, r.scriptEnabled)
  }

  /** The panels of the records that have one, in list order. */
  function Panels(mods: seq<ModRecord>): (ps: seq<ModPanel>)
    ensures |ps| <= |mods|
    ensures forall p :: p in ps ==> exists r :: r in mods && HasPanel(r) && p == PanelOf(r)
  {
    if |mods| == 0 then []
    else
      var init := Panels(mods[..|mods| - 1]);
      var r := mods[|mods| - 1];
      if HasPanel(r) then init + [PanelOf(r)] else init
  }

  /** Panels keep list order: a split list gives the panels of its parts in turn. */
  lemma {:induction false} PanelsAppend(a: seq<ModRecord>, b: seq<ModRecord>)
    ensures Panels(a + b) == Panels(a) + Panels(b)
    decreases |b|
  {
    if |b| > 0 {
      var n := |b| - 1;
      var tail := if HasPanel(b[n]) then [PanelOf(b[n])] else [];
      assert Panels(a + b) == Panels(a + b[..n]) + tail by {
        assert (a + b)[..|a + b| - 1] == a + b[..n];
        assert (a + b)[|a + b| - 1] == b[n];
      }
      assert Panels(b) == Panels(b[..n]) + tail;
      PanelsAppend(a, b[..n]);
    } else {
      assert a + b == a;
    }
  }

  /** Clicking the same boxes in two frames puts every record back as it was. */
  lemma ToggleTwiceRestores(mods: seq<ModRecord>, clicked: seq<bool>)
    requires |clicked| == |mods| && HandlesInSync(mods)
    ensures Toggled(Toggled(mods, clicked), clicked) == mods
  {
    var once := Toggled(mods, clicked);
    var twice := Toggled(once, clicked);
    forall i | 0 <= i < |mods| ensures twice[i] == mods[i] {
      assert mods[i] in mods;
    }
  }

  /** Every record with a panel contributes its panel. */
  lemma {:induction false} PanelsAreComplete(mods: seq<ModRecord>, r: ModRecord)
    requires r in mods && HasPanel(r)
    ensures PanelOf(r) in Panels(mods)
  {
    var n := |mods| - 1;
    if mods[n] != r {
      assert mods == mods[..n] + [mods[n]];
      PanelsAreComplete(mods[..n], r);
    }
  }

  /** Some record has its toggle on. */
  predicate AnyScriptEnabled(mods: seq<ModRecord>)
  {
    exists i :: 0 <= i < |mods| && mods[i].scriptEnabled
  }

  /**
    The positions of the records whose script draws on the overlay: every
    record with a live script, whether its toggle is on or off, in order.
   */
  function LiveIndices(mods: seq<ModRecord>): (ix: seq<nat>)
    ensures forall i: nat :: i in ix <==> i < |mods| && mods[i].script.Some?
    ensures forall a, b :: 0 <= a < b < |ix| ==> ix[a] < ix[b]
  {
    if |mods| == 0 then []
    else
      var n := |mods| - 1;
      var init := LiveIndices(mods[..n]);
      assert forall i :: 0 <= i < n ==> mods[..n][i] == mods[i];
      forall k | 0 <= k < |init| ensures init[k] < n {
        assert init[k] in init;
      }
      if mods[n].script.Some? then init + [n] else init
  }

  /** What the overlay pass draws in one frame. */
  datatype Overlay =
    | NothingToDraw                                              // no mods and no console
    | Overlay(onlineWarning: bool, console: bool, scripts: seq<nat>)
}
