/**
  The waveform's regions plugin, seen from the components that use it: a collection of
  regions `{id, start, end}` with display options, to which regions are added, from which
  they are removed and whose options are rewritten one region at a time.

  The real plugin hands out random string ids; here a counter hands out ids that are
  fresh in the same sense (no region present or removed ever had them).
*/
module Plugin {

  type RegionId = nat

  /** One region of the plugin: its id, its bounds in milliseconds and its display options */
  datatype PluginRegion<S> = PluginRegion(id: RegionId, start: nat, end: nat, style: S)

  predicate HasId<S>(rs: seq<PluginRegion<S>>, id: RegionId) {
    exists i :: 0 <= i < |rs| && rs[i].id == id
  }

  predicate DistinctIds<S>(rs: seq<PluginRegion<S>>) {
    forall i, j :: 0 <= i < j < |rs| ==> rs[i].id != rs[j].id
  }

  /** The regions left once the region with `id` is removed, in their old order */
  function Without<S>(rs: seq<PluginRegion<S>>, id: RegionId): (r: seq<PluginRegion<S>>)
    ensures |r| <= |rs|
    ensures forall i :: 0 <= i < |r| ==> r[i] in rs && r[i].id != id
  {
    if rs == [] then []
    else if rs[0].id == id then Without(rs[1..], id)
    else [rs[0]] + Without(rs[1..], id)
  }

  /** Every region with another id survives the removal */
  lemma {:induction false} WithoutKeepsOthers<S>(rs: seq<PluginRegion<S>>, id: RegionId)
    ensures forall i :: 0 <= i < |rs| && rs[i].id != id ==> rs[i] in Without(rs, id)
  {
    if rs != [] {
      WithoutKeepsOthers(rs[1..], id);
      forall i | 0 <= i < |rs| && rs[i].id != id ensures rs[i] in Without(rs, id) {
        if i > 0 {
          assert rs[i] == rs[1..][i - 1];
        }
      }
    }
  }

  /**
    Removal distributes over concatenation, so it keeps the surviving regions in their old
    order: removing from `rs + ss` is removing from `rs`, then from `ss`.
  */
  lemma {:induction false} WithoutAppend<S>(rs: seq<PluginRegion<S>>, ss: seq<PluginRegion<S>>, id: RegionId)
    ensures Without(rs + ss, id) == Without(rs, id) + Without(ss, id)
  {
    if rs == [] {
      assert rs + ss == ss;
    } else {
      assert (rs + ss)[0] == rs[0];
      assert (rs + ss)[1..] == rs[1..] + ss;
      WithoutAppend(rs[1..], ss, id);
    }
  }

  /** Removing an id that no region has changes nothing */
  lemma {:induction false} WithoutAbsent<S>(rs: seq<PluginRegion<S>>, id: RegionId)
    requires !HasId(rs, id)
    ensures Without(rs, id) == rs
  {
    if rs != [] {
      assert !HasId(rs[1..], id) by {
        forall i | 0 <= i < |rs[1..]| ensures rs[1..][i].id != id {
          assert rs[1..][i] == rs[i + 1];
        }
      }
      WithoutAbsent(rs[1..], id);
      assert rs[0].id != id;
      assert rs == [rs[0]] + rs[1..];
    }
  }

  /** With distinct ids, removing a present id drops exactly one region */
  lemma {:induction false} WithoutCount<S>(rs: seq<PluginRegion<S>>, id: RegionId)
    requires DistinctIds(rs) && HasId(rs, id)
    ensures |Without(rs, id)| == |rs| - 1
  {
    var rest := rs[1..];
    assert DistinctIds(rest) by {
      forall i, j | 0 <= i < j < |rest| ensures rest[i].id != rest[j].id {
        assert rest[i] == rs[i + 1] && rest[j] == rs[j + 1];
      }
    }
    if rs[0].id == id {
      assert !HasId(rest, id) by {
        forall i | 0 <= i < |rest| ensures rest[i].id != id {
          assert rest[i] == rs[i + 1];
        }
      }
      WithoutAbsent(rest, id);
    } else {
      var k :| 0 <= k < |rs| && rs[k].id == id;
      assert rest[k - 1].id == id;
      WithoutCount(rest, id);
    }
  }

  /** Removing a region keeps the ids of the others distinct */
  lemma {:induction false} WithoutDistinct<S>(rs: seq<PluginRegion<S>>, id: RegionId)
    requires DistinctIds(rs)
    ensures DistinctIds(Without(rs, id))
  {
    if rs != [] {
      var rest := rs[1..];
      assert DistinctIds(rest) by {
        forall i, j | 0 <= i < j < |rest| ensures rest[i].id != rest[j].id {
          assert rest[i] == rs[i + 1] && rest[j] == rs[j + 1];
        }
      }
      WithoutDistinct(rest, id);
      if rs[0].id != id {
        var w := Without(rest, id);
        forall j | 0 <= j < |w| ensures w[j].id != rs[0].id {
          assert w[j] in rest;
          var k :| 0 <= k < |rest| && rest[k] == w[j];
          assert rs[k + 1] == w[j];
        }
        var r := [rs[0]] + w;
        assert Without(rs, id) == r;
        forall i, j | 0 <= i < j < |r| ensures r[i].id != r[j].id {
          if i == 0 {
            assert r[j] == w[j - 1];
          } else {
            assert r[i] == w[i - 1] && r[j] == w[j - 1];
          }
        }
      }
    }
  }

  class RegionsPlugin<S> {
    var regions: seq<PluginRegion<S>>
    /** The next id to hand out; every id handed out so far is below it */
    var nextId: RegionId

    ghost predicate Valid()
      reads this
    {
      && DistinctIds(regions)
      && forall i :: 0 <= i < |regions| ==> regions[i].id < nextId
    }

    constructor()
      ensures Valid() && regions == []
    {
      regions := [];
      nextId := 0;
    }

    predicate Has(id: RegionId)
      reads this
    {
      HasId(regions, id)
    }

    /** `addRegion({start, end, …})`: appends one region under a fresh id */
    method AddRegion(start: nat, end: nat, style: S) returns (id: RegionId)
      requires Valid()
      modifies this
      ensures Valid()
      ensures !HasId(old(regions), id) && id < nextId
      ensures id == old(nextId) && nextId == old(nextId) + 1
      ensures regions == old(regions) + [PluginRegion(id, start, end, style)]
    {
      id := nextId;
      regions := regions + [PluginRegion(id, start, end, style)];
      nextId := nextId + 1;
    }

    /** `removeRegion(id)` / `region.remove()`: drops the region with that id, if any */
    method RemoveRegion(id: RegionId)
      requires Valid()
      modifies this
      ensures Valid()
      ensures regions == Without(old(regions), id) && nextId == old(nextId)
    {
      WithoutDistinct(regions, id);
      assert forall r :: r in Without(regions, id) ==> r in regions;
      regions := Without(regions, id);
    }

    /** `regions[i].setOptions(style)`: rewrites the display options of one region */
    method SetStyleAt(i: nat, style: S)
      requires i < |regions|
      modifies this
      ensures regions == old(regions)[i := old(regions)[i].(style := style)]
      ensures nextId == old(nextId)
    {
      regions := regions[i := regions[i].(style := style)];
    }
  }
}
