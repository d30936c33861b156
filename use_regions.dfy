/**
  The region hook of src/hooks/useRegions.js: the selected region, the speaker assigned to
  each region, the highlighted speaker, and the pass that restyles every region of the
  plugin from its speaker.
*/
module UseRegions {
  import opened Wrappers
  import opened Plugin

  /** `speakerRegions[id]`: the speaker assigned to a region, or `undefined` */
  function SpeakerOf(byRegion: map<RegionId, string>, id: RegionId): (r: Option<string>)
    ensures r.Some? <==> id in byRegion
    ensures r.Some? ==> r.value == byRegion[id]
  {
    if id in byRegion then Some(byRegion[id]) else None
  }

  /** Every region restyled by `getRegionStyle(r.id, speakerRegions[r.id])`, nothing else changed */
  function Restyled<S>(rs: seq<PluginRegion<S>>, byRegion: map<RegionId, string>,
                       getRegionStyle: (RegionId, Option<string>) -> S): (r: seq<PluginRegion<S>>)
    ensures |r| == |rs|
    ensures forall i :: 0 <= i < |rs| ==>
      && r[i].id == rs[i].id && r[i].start == rs[i].start && r[i].end == rs[i].end
      && r[i].style == getRegionStyle(rs[i].id, SpeakerOf(byRegion, rs[i].id))
  {
    if rs == [] then []
    else
      [rs[0].(style := getRegionStyle(rs[0].id, SpeakerOf(byRegion, rs[0].id)))]
        + Restyled(rs[1..], byRegion, getRegionStyle)
  }

  /** Restyling twice is restyling once */
  lemma {:induction false} RestyledIdempotent<S>(rs: seq<PluginRegion<S>>, byRegion: map<RegionId, string>,
                                                 getRegionStyle: (RegionId, Option<string>) -> S)
    ensures Restyled(Restyled(rs, byRegion, getRegionStyle), byRegion, getRegionStyle)
            == Restyled(rs, byRegion, getRegionStyle)
  {
    var once := Restyled(rs, byRegion, getRegionStyle);
    var twice := Restyled(once, byRegion, getRegionStyle);
    assert forall i :: 0 <= i < |rs| ==> twice[i] == once[i];
  }

  /** Removing a region's assignment keeps every other assignment, and is a no-op when absent */
  lemma RemovalKeepsOthers(byRegion: map<RegionId, string>, id: RegionId)
    ensures id !in byRegion - {id}
    ensures forall k :: k in byRegion && k != id ==> k in byRegion - {id} && (byRegion - {id})[k] == byRegion[k]
    ensures forall k :: k in byRegion - {id} ==> k in byRegion
    ensures id !in byRegion ==> byRegion - {id} == byRegion
  {
  }

  /**
    After `handleRegionRemoved(id)` the removed region has no speaker, every other region
    keeps its speaker, and so the restyling pass styles every other region as before.
  */
  lemma {:induction false} RemovalRestyles<S>(rs: seq<PluginRegion<S>>, byRegion: map<RegionId, string>, id: RegionId,
                                              getRegionStyle: (RegionId, Option<string>) -> S)
    ensures SpeakerOf(byRegion - {id}, id) == None
    ensures forall k :: k != id ==> SpeakerOf(byRegion - {id}, k) == SpeakerOf(byRegion, k)
    ensures forall i :: 0 <= i < |rs| && rs[i].id != id ==>
      Restyled(rs, byRegion - {id}, getRegionStyle)[i] == Restyled(rs, byRegion, getRegionStyle)[i]
  {
    forall k | k != id ensures SpeakerOf(byRegion - {id}, k) == SpeakerOf(byRegion, k) {
      assert (k in byRegion - {id}) <==> (k in byRegion);
    }
  }

  class RegionsHook {
    var selectedRegionId: Option<RegionId>
    var speakerRegions: map<RegionId, string>
    var highlightedSpeaker: Option<string>

    /** The initial state: nothing selected, nothing assigned, nothing highlighted */
    constructor()
      ensures selectedRegionId == None && speakerRegions == map[] && highlightedSpeaker == None
    {
      selectedRegionId := None;
      speakerRegions := map[];
      highlightedSpeaker := None;
    }

    /** `handleRegionClick`: selects the clicked region and changes nothing else */
    method HandleRegionClick(id: RegionId)
      modifies this
      ensures selectedRegionId == Some(id)
      ensures speakerRegions == old(speakerRegions) && highlightedSpeaker == old(highlightedSpeaker)
    {
      selectedRegionId := Some(id);
    }

    /** `handleRegionRemoved`: forgets that region's speaker, and only that */
    method HandleRegionRemoved(id: RegionId)
      modifies this
      ensures speakerRegions == old(speakerRegions) - {id}
      ensures SpeakerOf(speakerRegions, id) == None
      ensures selectedRegionId == old(selectedRegionId) && highlightedSpeaker == old(highlightedSpeaker)
    {
      speakerRegions := speakerRegions - {id};
    }

    /**
      `updateAllRegionStyles`: applies `getRegionStyle(id, speakerRegions[id])` to every region
      of the plugin; without a plugin it does nothing.
    */
    method UpdateAllRegionStyles<S>(plugin: RegionsPlugin?<S>, getRegionStyle: (RegionId, Option<string>) -> S)
      modifies plugin
      ensures plugin != null ==> plugin.regions == Restyled(old(plugin.regions), speakerRegions, getRegionStyle)
      ensures plugin != null ==> plugin.nextId == old(plugin.nextId)
    {
      if plugin == null {
        return;
      }
      var i := 0;
      while i < |plugin.regions|
        invariant 0 <= i <= |plugin.regions| == |old(plugin.regions)|
        invariant plugin.nextId == old(plugin.nextId)
        invariant forall k :: 0 <= k < i ==>
          plugin.regions[k] == old(plugin.regions)[k].(style := getRegionStyle(old(plugin.regions)[k].id,
                                                                               SpeakerOf(speakerRegions, old(plugin.regions)[k].id)))
        invariant forall k :: i <= k < |plugin.regions| ==> plugin.regions[k] == old(plugin.regions)[k]
      {
        var r := plugin.regions[i];
        plugin.SetStyleAt(i, getRegionStyle(r.id, SpeakerOf(speakerRegions, r.id)));
        i := i + 1;
      }
    }
  }
}
