/**
  The region list of components/RegionList.js: its display order and its time-edit state
  machine, which formats a region's bounds into two text fields and accepts the edit only
  when both fields parse and start < end.
*/
module RegionList {
  import opened Wrappers
  import opened TimeCodec
  import opened Plugin

  /** A region as the list receives it: id, bounds in milliseconds, assigned speaker */
  datatype ListedRegion = ListedRegion(id: RegionId, start: nat, end: nat, speaker: Option<string>)

  // ---------------------------------------------------------------------------
  // Display order: `[...regions].sort((a, b) => a.start - b.start)`

  predicate SortedByStart(rs: seq<ListedRegion>) {
    forall i, j :: 0 <= i < j < |rs| ==> rs[i].start <= rs[j].start
  }

  /** The regions whose start is `t`, in the order they appear */
  function WithStart(rs: seq<ListedRegion>, t: nat): seq<ListedRegion> {
    if rs == [] then []
    else (if rs[0].start == t then [rs[0]] else []) + WithStart(rs[1..], t)
  }

  /** Places `x` before the first region that does not start earlier than it */
  function Insert(x: ListedRegion, rs: seq<ListedRegion>): (r: seq<ListedRegion>)
    ensures multiset(r) == multiset(rs) + multiset{x}
    ensures |r| == |rs| + 1
  {
    if rs == [] || x.start <= rs[0].start then [x] + rs
    else
      assert rs == [rs[0]] + rs[1..];
      [rs[0]] + Insert(x, rs[1..])
  }

  /**
    The list's display order. `Array.prototype.sort` is stable, so regions with equal
    starts keep their input order; the copy `[...regions]` leaves the input untouched,
    which a function on values cannot do otherwise.
  */
  function SortByStart(rs: seq<ListedRegion>): (r: seq<ListedRegion>)
    ensures SortedByStart(r)
    ensures multiset(r) == multiset(rs)
  {
    if rs == [] then []
    else
      var rest := SortByStart(rs[1..]);
      InsertSorted(rs[0], rest);
      assert rs == [rs[0]] + rs[1..];
      Insert(rs[0], rest)
  }

  predicate StartsFrom(rs: seq<ListedRegion>, lb: nat) {
    forall i :: 0 <= i < |rs| ==> lb <= rs[i].start
  }

  lemma {:induction false} InsertStartsFrom(x: ListedRegion, rs: seq<ListedRegion>, lb: nat)
    requires StartsFrom(rs, lb) && lb <= x.start
    ensures StartsFrom(Insert(x, rs), lb)
  {
    if rs != [] && x.start > rs[0].start {
      var tail := rs[1..];
      assert StartsFrom(tail, lb) by {
        forall i | 0 <= i < |tail| ensures lb <= tail[i].start {
          assert tail[i] == rs[i + 1];
        }
      }
      InsertStartsFrom(x, tail, lb);
      var r := [rs[0]] + Insert(x, tail);
      forall i | 0 <= i < |r| ensures lb <= r[i].start {
        if i > 0 {
          assert r[i] == Insert(x, tail)[i - 1];
        }
      }
    }
  }

  lemma {:induction false} InsertSorted(x: ListedRegion, rs: seq<ListedRegion>)
    requires SortedByStart(rs)
    ensures SortedByStart(Insert(x, rs))
  {
    if rs != [] && x.start > rs[0].start {
      var tail := rs[1..];
      assert SortedByStart(tail) by {
        forall i, j | 0 <= i < j < |tail| ensures tail[i].start <= tail[j].start {
          assert tail[i] == rs[i + 1] && tail[j] == rs[j + 1];
        }
      }
      assert StartsFrom(tail, rs[0].start) by {
        forall i | 0 <= i < |tail| ensures rs[0].start <= tail[i].start {
          assert tail[i] == rs[i + 1];
        }
      }
      InsertSorted(x, tail);
      InsertStartsFrom(x, tail, rs[0].start);
      var ins := Insert(x, tail);
      var r := [rs[0]] + ins;
      forall i, j | 0 <= i < j < |r| ensures r[i].start <= r[j].start {
        if i > 0 {
          assert r[i] == ins[i - 1] && r[j] == ins[j - 1];
        } else {
          assert r[j] == ins[j - 1];
        }
      }
    }
  }

  /** The head's contribution to `WithStart` */
  function Head(x: ListedRegion, t: nat): seq<ListedRegion> {
    if x.start == t then [x] else []
  }

  lemma WithStartCons(rs: seq<ListedRegion>, t: nat)
    requires rs != []
    ensures WithStart(rs, t) == Head(rs[0], t) + WithStart(rs[1..], t)
  {
  }

  lemma {:induction false} WithStartAppend(a: seq<ListedRegion>, b: seq<ListedRegion>, t: nat)
    ensures WithStart(a + b, t) == WithStart(a, t) + WithStart(b, t)
  {
    if a == [] {
      assert a + b == b;
    } else {
      var c := a + b;
      assert c[0] == a[0];
      assert c[1..] == a[1..] + b;
      WithStartAppend(a[1..], b, t);
      WithStartCons(c, t);
      WithStartCons(a, t);
      var h, x, y := Head(a[0], t), WithStart(a[1..], t), WithStart(b, t);
      assert WithStart(c, t) == h + (x + y);
      assert h + (x + y) == (h + x) + y;
    }
  }

  lemma WithStartSingle(x: ListedRegion, t: nat)
    ensures WithStart([x], t) == Head(x, t)
  {
    WithStartCons([x], t);
    assert [x][1..] == [];
  }

  lemma {:induction false} InsertStable(x: ListedRegion, rs: seq<ListedRegion>, t: nat)
    ensures WithStart(Insert(x, rs), t) == WithStart([x], t) + WithStart(rs, t)
  {
    if rs == [] || x.start <= rs[0].start {
      WithStartAppend([x], rs, t);
    } else {
      var y, tail := rs[0], rs[1..];
      assert rs == [y] + tail;
      var ins := Insert(x, tail);
      assert Insert(x, rs) == [y] + ins;
      InsertStable(x, tail, t);
      WithStartAppend([y], ins, t);
      WithStartAppend([y], tail, t);
      WithStartSingle(x, t);
      WithStartSingle(y, t);
      var hx, hy, w := Head(x, t), Head(y, t), WithStart(tail, t);
      assert hy == [] || hx == [];
      assert WithStart(Insert(x, rs), t) == hy + (hx + w);
      assert WithStart(rs, t) == hy + w;
      assert hy + (hx + w) == hx + (hy + w);
    }
  }

  /** Stability: the regions sharing any one start are displayed in their input order */
  lemma {:induction false} SortStable(rs: seq<ListedRegion>, t: nat)
    ensures WithStart(SortByStart(rs), t) == WithStart(rs, t)
  {
    if rs != [] {
      var y, tail := rs[0], rs[1..];
      assert rs == [y] + tail;
      var sorted := SortByStart(tail);
      assert SortByStart(rs) == Insert(y, sorted);
      SortStable(tail, t);
      InsertStable(y, sorted, t);
      WithStartAppend([y], tail, t);
    }
  }

  // ---------------------------------------------------------------------------
  // The edit rule

  /**
    The check of `handleEditSave`: both fields must parse, and the start must be before the
    end. `Some((start, end))` is the edit to hand to `onEditSave`.
  */
  function CheckEdit(startText: string, endText: string): (r: Option<(nat, nat)>)
    ensures r.Some? <==> ParseFull(startText).Some? && ParseFull(endText).Some?
                         && ParseFull(startText).value < ParseFull(endText).value
    ensures r.Some? ==> ParseFull(startText) == Some(r.value.0)
                        && ParseFull(endText) == Some(r.value.1)
                        && r.value.0 < r.value.1
  {
    match (ParseFull(startText), ParseFull(endText))
    case (Some(s), Some(e)) => if s >= e then None else Some((s, e))
    case _ => None
  }

  /** Saving an untouched edit of a region below 100 hours gives the region its own bounds back */
  lemma UntouchedEditSaves(start: nat, end: nat)
    requires start < end < HundredHours
    ensures CheckEdit(FormatFull(Millis(start)), FormatFull(Millis(end))) == Some((start, end))
  {
    RoundTrip(start);
    RoundTrip(end);
  }

  /** From 100 hours on, a bound must be retyped: its own text is refused */
  lemma LongRegionRefused(start: nat, end: nat)
    requires end >= HundredHours
    ensures CheckEdit(FormatFull(Millis(start)), FormatFull(Millis(end))) == None
  {
    FormatWidensAtHundredHours(end);
  }

  /** An empty start field reads as zero, so it is accepted whenever the end parses above zero */
  lemma EmptyStartIsZero(endText: string)
    ensures CheckEdit("", endText).Some? <==> ParseFull(endText).Some? && ParseFull(endText).value > 0
  {
  }

  /**
    Start "00:00:01" against end "00:00:00.5" is refused: the start lacks its fraction and
    does not parse at all, before start and end are compared.
  */
  lemma MissingFractionRefused()
    ensures ParseFull("00:00:01") == None && ParseFull("00:00:00.5") == Some(500)
    ensures CheckEdit("00:00:01", "00:00:00.5") == None
  {
    ParseExamples();
    assert PadFraction("00:00:00.5") == "00:00:00.500";
    assert Canonical("00:00:00.500");
  }

  /** The call `onEditSave(id, start, end)` */
  datatype EditCall = EditCall(id: RegionId, start: nat, end: nat)

  /** The edit state of the list: which region is being edited and the two text fields */
  class Editor {
    var editingId: Option<RegionId>
    var editStart: nat
    var editEnd: nat
    var editStartStr: string
    var editEndStr: string

    constructor()
      ensures editingId == None && editStart == 0 && editEnd == 0
      ensures editStartStr == "" && editEndStr == ""
    {
      editingId := None;
      editStart := 0;
      editEnd := 0;
      editStartStr := "";
      editEndStr := "";
    }

    /** `handleEditClick`: opens the region for editing with its bounds formatted */
    method EditClick(region: ListedRegion)
      modifies this
      ensures editingId == Some(region.id)
      ensures editStart == region.start && editEnd == region.end
      ensures editStartStr == FormatFull(Millis(region.start))
      ensures editEndStr == FormatFull(Millis(region.end))
    {
      var startText, endText := FormatFull(Millis(region.start)), FormatFull(Millis(region.end));
      editingId, editStart, editEnd := Some(region.id), region.start, region.end;
      editStartStr, editEndStr := startText, endText;
    }

    /** The start field's `onChange` */
    method SetStartText(text: string)
      modifies this
      ensures editStartStr == text
      ensures editingId == old(editingId) && editEndStr == old(editEndStr)
      ensures editStart == old(editStart) && editEnd == old(editEnd)
    {
      editStartStr := text;
    }

    /** The end field's `onChange` */
    method SetEndText(text: string)
      modifies this
      ensures editEndStr == text
      ensures editingId == old(editingId) && editStartStr == old(editStartStr)
      ensures editStart == old(editStart) && editEnd == old(editEnd)
    {
      editEndStr := text;
    }

    /**
      `handleEditSave(region)`. A refused edit raises an alert (`alerted`), calls nothing and
      leaves the editor open; an accepted one calls `onEditSave` once when the callback is
      given (`call`) and closes the editor.
    */
    method EditSave(region: ListedRegion, hasCallback: bool) returns (call: Option<EditCall>, alerted: bool)
      modifies this
      ensures var edit := CheckEdit(old(editStartStr), old(editEndStr));
        && alerted == edit.None?
        && (edit.None? ==> call == None && editingId == old(editingId))
        && (edit.Some? ==>
              && editingId == None
              && call == (if hasCallback then Some(EditCall(region.id, edit.value.0, edit.value.1)) else None))
      ensures editStartStr == old(editStartStr) && editEndStr == old(editEndStr)
      ensures editStart == old(editStart) && editEnd == old(editEnd)
    {
      var edit := CheckEdit(editStartStr, editEndStr);
      if edit.None? {
        return None, true;
      }
      call := if hasCallback then Some(EditCall(region.id, edit.value.0, edit.value.1)) else None;
      alerted := false;
      editingId := None;
    }

    /** `handleEditCancel`: closes the editor, keeping the text fields */
    method EditCancel()
      modifies this
      ensures editingId == None
      ensures editStartStr == old(editStartStr) && editEndStr == old(editEndStr)
      ensures editStart == old(editStart) && editEnd == old(editEnd)
    {
      editingId := None;
    }
  }
}
