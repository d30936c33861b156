/**
  The labelling state machine of src/app/WaveformLabeler.js: the pointer drag that creates
  regions, the colouring that marks the selected region, the Delete/Backspace removal and
  the speaker roster.

  Times are milliseconds. The pointer's position is handed in as the time it points at
  before clamping (`raw`); the duration of the loaded audio is handed in as `duration`.
*/
module WaveformLabeler {
  import opened Wrappers
  import opened Plugin

  /** `minRegionLength` (1.0 s) */
  const MinRegionLength: nat := 1000

  /** The colour of a region that is not selected (also the colour it is created with) */
  const IdleColor: string := "rgba(120, 120, 120, 0.18)"
  /** The colour of the selected region */
  const SelectedColor: string := "rgba(25, 118, 210, 0.25)"

  // ---------------------------------------------------------------------------
  // Pointer time

  /**
    `getTimeFromMouseEvent(e).time`: 0 while the waveform is not mounted, otherwise the
    pointed-at time clamped to `[0, duration]`.
  */
  function PointerTime(mounted: bool, duration: nat, raw: int): (t: nat)
    ensures t <= duration
    ensures !mounted ==> t == 0
    ensures mounted && 0 <= raw <= duration ==> t == raw
    ensures mounted && raw < 0 ==> t == 0
    ensures mounted && raw > duration ==> t == duration
  {
    if !mounted then 0 else Max(0, Min(duration, raw))
  }

  function Min(a: int, b: int): int { if a <= b then a else b }
  function Max(a: int, b: int): int { if a >= b then a else b }

  /** The clamp keeps the order of pointer positions */
  lemma PointerTimeMonotone(mounted: bool, duration: nat, raw1: int, raw2: int)
    requires raw1 <= raw2
    ensures PointerTime(mounted, duration, raw1) <= PointerTime(mounted, duration, raw2)
  {
  }

  /**
    What a release makes of the drag: the interval between the two times whichever way the
    pointer moved, or `None` when it is shorter than `MinRegionLength`.
  */
  function DragInterval(origin: nat, release: nat): (r: Option<(nat, nat)>)
    ensures r.Some? <==> (origin <= release ==> release - origin >= MinRegionLength)
                         && (release < origin ==> origin - release >= MinRegionLength)
    ensures r.Some? ==> r.value.0 <= r.value.1 && r.value.1 - r.value.0 >= MinRegionLength
    ensures r.Some? ==> {r.value.0, r.value.1} == {origin, release}
  {
    var start := Min(origin, release);
    var end := Max(origin, release);
    if end - start < MinRegionLength then None else Some((start, end))
  }

  /** Swapping the two ends of a drag makes the same interval */
  lemma DragIntervalSymmetric(a: nat, b: nat)
    ensures DragInterval(a, b) == DragInterval(b, a)
  {
  }

  // ---------------------------------------------------------------------------
  // Selection colouring

  function ColorFor(id: RegionId, selected: Option<RegionId>): string {
    if selected == Some(id) then SelectedColor else IdleColor
  }

  /** Every region wears the colour the selection gives it */
  predicate Colored(rs: seq<PluginRegion<string>>, selected: Option<RegionId>) {
    forall i :: 0 <= i < |rs| ==> rs[i].style == ColorFor(rs[i].id, selected)
  }

  /** The colour effect: every region recoloured for the selection, nothing else changed */
  function Recolored(rs: seq<PluginRegion<string>>, selected: Option<RegionId>): (r: seq<PluginRegion<string>>)
    ensures |r| == |rs|
    ensures forall i :: 0 <= i < |rs| ==> r[i] == rs[i].(style := ColorFor(rs[i].id, selected))
    ensures Colored(r, selected)
  {
    if rs == [] then []
    else [rs[0].(style := ColorFor(rs[0].id, selected))] + Recolored(rs[1..], selected)
  }

  /** Recolouring regions that already wear the selection's colours changes nothing */
  lemma RecoloredIdempotent(rs: seq<PluginRegion<string>>, selected: Option<RegionId>)
    requires Colored(rs, selected)
    ensures Recolored(rs, selected) == rs
  {
  }

  /** With distinct ids, at most one region wears the selected colour */
  lemma AtMostOneSelected(rs: seq<PluginRegion<string>>, selected: Option<RegionId>)
    requires DistinctIds(rs) && Colored(rs, selected)
    ensures forall i, j :: 0 <= i < j < |rs| && rs[i].style == SelectedColor ==> rs[j].style != SelectedColor
  {
    assert SelectedColor != IdleColor by {
      assert SelectedColor[5] != IdleColor[5];
    }
  }

  /** With nothing selected, every region wears the idle colour */
  lemma NoneSelectedAllIdle(rs: seq<PluginRegion<string>>)
    requires Colored(rs, None)
    ensures forall i :: 0 <= i < |rs| ==> rs[i].style == IdleColor
  {
  }

  // ---------------------------------------------------------------------------
  // Speaker roster

  /** A UTF-16 code unit: JavaScript strings are sequences of these */
  type CodeUnit = x: int | 0 <= x < 0x1_0000

  /** A JavaScript string */
  type JsString = seq<CodeUnit>

  /** A Dafny string whose characters are all single code units, as a JavaScript string */
  function Units(s: string): (u: JsString)
    requires forall i :: 0 <= i < |s| ==> s[i] as int < 0x1_0000
    ensures |u| == |s| && forall i :: 0 <= i < |s| ==> u[i] == s[i] as int
  {
    seq(|s|, i requires 0 <= i < |s| => s[i] as int)
  }

  /** "Speaker " */
  const SpeakerPrefix: JsString := [83, 112, 101, 97, 107, 101, 114, 32]

  /**
    The name Add gives the speaker after `n` others: `Speaker ${String.fromCharCode(65 + n)}`.
    `String.fromCharCode` keeps only the low 16 bits of its argument.
  */
  function SpeakerName(n: nat): (name: JsString)
    ensures |name| == |SpeakerPrefix| + 1 && name[..|SpeakerPrefix|] == SpeakerPrefix
  {
    SpeakerPrefix + [(65 + n) % 0x1_0000]
  }

  /** The roster after `n - 2` Adds: `Speaker A`, `Speaker B`, … */
  function Roster(n: nat): (r: seq<JsString>)
    ensures |r| == n && forall i :: 0 <= i < n ==> r[i] == SpeakerName(i)
  {
    if n == 0 then [] else Roster(n - 1) + [SpeakerName(n - 1)]
  }

  /** The initial roster is `['Speaker A', 'Speaker B']` */
  lemma InitialRoster()
    ensures Roster(2) == [Units("Speaker A"), Units("Speaker B")]
    ensures SpeakerName(0) == Units("Speaker A")
  {
    var a, b := Units("Speaker A"), Units("Speaker B");
    assert forall i :: 0 <= i < 9 ==> SpeakerName(0)[i] == a[i];
    assert forall i :: 0 <= i < 9 ==> SpeakerName(1)[i] == b[i];
    assert SpeakerName(0) == a && SpeakerName(1) == b;
    assert Roster(2) == [SpeakerName(0), SpeakerName(1)];
  }

  /**
    Names in a roster are distinct as long as the letter code has not wrapped around; once it
    has, speaker number 0x1_0000 (counting from 0) is named like the first.
  */
  lemma RosterDistinct(n: nat)
    ensures n <= 0x1_0000 ==> forall i, j :: 0 <= i < j < n ==> Roster(n)[i] != Roster(n)[j]
    ensures n > 0x1_0000 ==> Roster(n)[0] == Roster(n)[0x1_0000]
  {
    var r := Roster(n);
    if n <= 0x1_0000 {
      forall i, j | 0 <= i < j < n ensures r[i] != r[j] {
        assert r[i][8] == 65 + i || r[i][8] == 65 + i - 0x1_0000;
        assert r[j][8] == 65 + j || r[j][8] == 65 + j - 0x1_0000;
        assert r[i][8] != r[j][8];
      }
    } else {
      assert SpeakerName(0) == SpeakerName(0x1_0000);
    }
  }

  /** The labeler's state */
  class Labeler {
    /** The time under the pointer (`hover.time`), or none */
    var hover: Option<nat>
    /** The time the drag started at (`dragStart.time`), or none */
    var dragStart: Option<nat>
    var isDragging: bool
    var speakers: seq<JsString>
    var selectedSpeaker: JsString
    var selectedRegionId: Option<RegionId>
    /** `regionsPluginRef.current`: no plugin before the waveform is mounted */
    var plugin: RegionsPlugin?<string>

    ghost predicate Valid()
      reads this, plugin
    {
      && (isDragging <==> dragStart.Some?)
      && |speakers| >= 2 && speakers == Roster(|speakers|)
      && selectedSpeaker in speakers
      && (selectedRegionId.Some? ==> plugin != null && plugin.Has(selectedRegionId.value))
      && (plugin != null ==> plugin.Valid() && Colored(plugin.regions, selectedRegionId))
    }

    predicate Mounted()
      reads this
    {
      plugin != null
    }

    constructor()
      ensures Valid()
      ensures hover == None && dragStart == None && !isDragging
      ensures speakers == Roster(2) && selectedSpeaker == SpeakerName(0)
      ensures selectedRegionId == None && plugin == null
    {
      hover := None;
      dragStart := None;
      isDragging := false;
      speakers := Roster(2);
      selectedSpeaker := SpeakerName(0);
      selectedRegionId := None;
      plugin := null;
    }

    /** The mount effect: creates the waveform and an empty regions plugin (once) */
    method Mount()
      requires Valid() && plugin == null
      modifies this
      ensures Valid() && fresh(plugin) && plugin.regions == []
      ensures hover == old(hover) && dragStart == old(dragStart) && isDragging == old(isDragging)
      ensures speakers == old(speakers) && selectedSpeaker == old(selectedSpeaker)
      ensures selectedRegionId == old(selectedRegionId)
    {
      plugin := new RegionsPlugin<string>();
    }

    /** `handleMouseDown`: the drag starts where the pointer is */
    method MouseDown(duration: nat, raw: int)
      requires Valid()
      modifies this
      ensures Valid()
      ensures var t := PointerTime(old(Mounted()), duration, raw);
        dragStart == Some(t) && isDragging && hover == Some(t)
      ensures speakers == old(speakers) && selectedSpeaker == old(selectedSpeaker)
      ensures selectedRegionId == old(selectedRegionId) && plugin == old(plugin)
    {
      var t := PointerTime(Mounted(), duration, raw);
      dragStart := Some(t);
      isDragging := true;
      hover := Some(t);
    }

    /** `handleMouseMove`: follows the pointer, except while dragging */
    method MouseMove(duration: nat, raw: int)
      requires Valid()
      modifies this
      ensures Valid()
      ensures hover == if old(isDragging) then old(hover) else Some(PointerTime(old(Mounted()), duration, raw))
      ensures dragStart == old(dragStart) && isDragging == old(isDragging)
      ensures speakers == old(speakers) && selectedSpeaker == old(selectedSpeaker)
      ensures selectedRegionId == old(selectedRegionId) && plugin == old(plugin)
    {
      if !isDragging {
        hover := Some(PointerTime(Mounted(), duration, raw));
      }
    }

    /** `handleWindowMouseMove`: the window listener, registered only while dragging */
    method WindowMouseMove(duration: nat, raw: int)
      requires Valid()
      modifies this
      ensures Valid()
      ensures hover == if old(isDragging) then Some(PointerTime(old(Mounted()), duration, raw)) else old(hover)
      ensures dragStart == old(dragStart) && isDragging == old(isDragging)
      ensures speakers == old(speakers) && selectedSpeaker == old(selectedSpeaker)
      ensures selectedRegionId == old(selectedRegionId) && plugin == old(plugin)
    {
      if isDragging {
        hover := Some(PointerTime(Mounted(), duration, raw));
      }
    }

    /**
      `handleWindowMouseUp`, the window listener registered only while dragging. It ends the
      drag on every path; when the interval is long enough and the waveform is mounted it
      adds exactly one idle region `[start, end]` and leaves every other region as it was.
    */
    method WindowMouseUp(duration: nat, raw: int) returns (added: Option<RegionId>)
      requires Valid()
      modifies this, plugin
      ensures Valid() && plugin == old(plugin)
      ensures old(isDragging) ==> !isDragging && dragStart == None
      ensures !old(isDragging) ==> isDragging == old(isDragging) && dragStart == old(dragStart)
      ensures var interval := DragInterval(old(dragStart).GetOr(0), PointerTime(old(Mounted()), duration, raw));
        && (added.Some? <==> old(isDragging) && interval.Some? && old(Mounted()))
        && (added.Some? ==>
              && !HasId(old(plugin.regions), added.value)
              && plugin.regions == old(plugin.regions)
                   + [PluginRegion(added.value, interval.value.0, interval.value.1, IdleColor)])
      ensures added.None? && plugin != null ==> plugin.regions == old(plugin.regions)
      ensures hover == old(hover)
      ensures speakers == old(speakers) && selectedSpeaker == old(selectedSpeaker)
      ensures selectedRegionId == old(selectedRegionId)
    {
      added := None;
      if !isDragging {
        return;
      }
      var t := PointerTime(Mounted(), duration, raw);
      isDragging := false;
      var origin := dragStart.value;
      var interval := DragInterval(origin, t);
      if interval.None? {
        dragStart := None;
        return;
      }
      if plugin != null {
        var id := plugin.AddRegion(interval.value.0, interval.value.1, IdleColor);
        added := Some(id);
        assert selectedRegionId != Some(id);
        assert selectedRegionId.Some? ==> plugin.Has(selectedRegionId.value) by {
          if selectedRegionId.Some? {
            var k :| 0 <= k < |old(plugin.regions)| && old(plugin.regions)[k].id == selectedRegionId.value;
            assert plugin.regions[k].id == selectedRegionId.value;
          }
        }
      }
      dragStart := None;
    }

    /** `handleMouseLeave`: clears the hover and cancels any drag */
    method MouseLeave()
      requires Valid()
      modifies this
      ensures Valid()
      ensures hover == None && dragStart == None && !isDragging
      ensures speakers == old(speakers) && selectedSpeaker == old(selectedSpeaker)
      ensures selectedRegionId == old(selectedRegionId) && plugin == old(plugin)
    {
      hover := None;
      dragStart := None;
      isDragging := false;
    }

    /** The colour effect: rewrites every region's colour for the current selection */
    method SyncRegionColors()
      requires plugin != null && plugin.Valid()
      modifies plugin
      ensures plugin.Valid()
      ensures plugin.regions == Recolored(old(plugin.regions), selectedRegionId)
    {
      var i := 0;
      while i < |plugin.regions|
        invariant 0 <= i <= |plugin.regions| == |old(plugin.regions)|
        invariant plugin.nextId == old(plugin.nextId)
        invariant forall k :: 0 <= k < i ==>
          plugin.regions[k] == old(plugin.regions)[k].(style := ColorFor(old(plugin.regions)[k].id, selectedRegionId))
        invariant forall k :: i <= k < |plugin.regions| ==> plugin.regions[k] == old(plugin.regions)[k]
      {
        var r := plugin.regions[i];
        plugin.SetStyleAt(i, ColorFor(r.id, selectedRegionId));
        i := i + 1;
      }
    }

    /** `region-click`: selects the clicked region and recolours all regions */
    method RegionClick(id: RegionId)
      requires Valid() && plugin != null && plugin.Has(id)
      modifies this, plugin
      ensures Valid()
      ensures selectedRegionId == Some(id)
      ensures plugin == old(plugin) && plugin.regions == Recolored(old(plugin.regions), Some(id))
      ensures hover == old(hover) && dragStart == old(dragStart) && isDragging == old(isDragging)
      ensures speakers == old(speakers) && selectedSpeaker == old(selectedSpeaker)
    {
      selectedRegionId := Some(id);
      SyncRegionColors();
      assert plugin.Has(id) by {
        var k :| 0 <= k < |old(plugin.regions)| && old(plugin.regions)[k].id == id;
        assert plugin.regions[k].id == id;
      }
    }

    /**
      The window `keydown` listener: Delete or Backspace removes the selected region when the
      plugin has it, and clears the selection; afterwards no region wears the selected colour.
    */
    method KeyDownOnWindow(key: string)
      requires Valid()
      modifies this, plugin
      ensures Valid() && plugin == old(plugin)
      ensures var hit := (key == "Delete" || key == "Backspace") && old(selectedRegionId).Some?
                         && old(Mounted()) && old(plugin.Has(selectedRegionId.value));
        && (hit ==> selectedRegionId == None
                    && plugin.regions == Without(old(plugin.regions), old(selectedRegionId).value))
        && (!hit ==> selectedRegionId == old(selectedRegionId)
                     && (plugin != null ==> plugin.regions == old(plugin.regions)))
      ensures hover == old(hover) && dragStart == old(dragStart) && isDragging == old(isDragging)
      ensures speakers == old(speakers) && selectedSpeaker == old(selectedSpeaker)
    {
      if (key == "Delete" || key == "Backspace") && selectedRegionId.Some? && plugin != null
         && plugin.Has(selectedRegionId.value)
      {
        RemoveSelected();
      }
    }

    /**
      The container's `onKeyDown`: Delete or Backspace removes the selected region if the
      plugin has it, and clears the selection even when it does not.
    */
    method KeyDownOnContainer(key: string)
      requires Valid()
      modifies this, plugin
      ensures Valid() && plugin == old(plugin)
      ensures var hit := (key == "Delete" || key == "Backspace") && old(selectedRegionId).Some? && old(Mounted());
        && (hit ==> selectedRegionId == None
                    && plugin.regions == Without(old(plugin.regions), old(selectedRegionId).value))
        && (!hit ==> selectedRegionId == old(selectedRegionId)
                     && (plugin != null ==> plugin.regions == old(plugin.regions)))
      ensures hover == old(hover) && dragStart == old(dragStart) && isDragging == old(isDragging)
      ensures speakers == old(speakers) && selectedSpeaker == old(selectedSpeaker)
    {
      if (key == "Delete" || key == "Backspace") && selectedRegionId.Some? && plugin != null {
        // `regions.find` always succeeds: a selected region is one the plugin has (Valid)
        RemoveSelected();
      }
    }

    /** Removes the selected region and clears the selection */
    method RemoveSelected()
      requires Valid() && selectedRegionId.Some? && plugin != null
      modifies this, plugin
      ensures Valid()
      ensures selectedRegionId == None
      ensures plugin == old(plugin) && plugin.regions == Without(old(plugin.regions), old(selectedRegionId).value)
      ensures hover == old(hover) && dragStart == old(dragStart) && isDragging == old(isDragging)
      ensures speakers == old(speakers) && selectedSpeaker == old(selectedSpeaker)
    {
      var id := selectedRegionId.value;
      ghost var before := plugin.regions;
      plugin.RemoveRegion(id);
      selectedRegionId := None;
      forall i | 0 <= i < |plugin.regions| ensures plugin.regions[i].style == IdleColor {
        var x := plugin.regions[i];
        assert x in before && x.id != id;
        var k :| 0 <= k < |before| && before[k] == x;
      }
    }

    /** Add: appends `Speaker <next letter>` and leaves the others as they were */
    method AddSpeaker()
      requires Valid()
      modifies this
      ensures Valid()
      ensures speakers == old(speakers) + [SpeakerName(|old(speakers)|)]
      ensures selectedSpeaker == old(selectedSpeaker)
      ensures hover == old(hover) && dragStart == old(dragStart) && isDragging == old(isDragging)
      ensures selectedRegionId == old(selectedRegionId) && plugin == old(plugin)
    {
      speakers := speakers + [SpeakerName(|speakers|)];
    }

    /**
      Delete: with more than two speakers drops the last one, and moves the selection to the
      first speaker if the dropped one was selected; with two it does nothing.
    */
    method DeleteSpeaker()
      requires Valid()
      modifies this
      ensures Valid()
      ensures |old(speakers)| <= 2 ==> speakers == old(speakers) && selectedSpeaker == old(selectedSpeaker)
      ensures |old(speakers)| > 2 ==>
        && speakers == old(speakers)[..|old(speakers)| - 1]
        && selectedSpeaker == if old(selectedSpeaker) == old(speakers)[|old(speakers)| - 1]
                              then old(speakers)[0] else old(selectedSpeaker)
      ensures hover == old(hover) && dragStart == old(dragStart) && isDragging == old(isDragging)
      ensures selectedRegionId == old(selectedRegionId) && plugin == old(plugin)
    {
      if |speakers| > 2 {
        var last := speakers[|speakers| - 1];
        var first := speakers[0];
        speakers := speakers[..|speakers| - 1];
        if selectedSpeaker == last {
          selectedSpeaker := first;
        }
      }
    }

    /** The radio button of a speaker in the roster */
    method SelectSpeaker(speaker: JsString)
      requires Valid() && speaker in speakers
      modifies this
      ensures Valid()
      ensures selectedSpeaker == speaker && speakers == old(speakers)
      ensures hover == old(hover) && dragStart == old(dragStart) && isDragging == old(isDragging)
      ensures selectedRegionId == old(selectedRegionId) && plugin == old(plugin)
    {
      selectedSpeaker := speaker;
    }
  }

  /** The labeler's roster always has distinct names below the wrap-around of the letter code */
  lemma ValidRosterDistinct(l: Labeler)
    requires l.Valid() && |l.speakers| <= 0x1_0000
    ensures forall i, j :: 0 <= i < j < |l.speakers| ==> l.speakers[i] != l.speakers[j]
  {
    RosterDistinct(|l.speakers|);
  }
}
