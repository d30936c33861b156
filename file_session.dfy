/**
  The per-file session state kept by src/app/hooks/useAudioFiles.js and, with the same
  handlers written out again, by page.js: the list of file records, the selected index,
  and the saved flag of each index, plus the page's previous/next navigation.

  The selected index is JavaScript `null` or a number; `savedStates` is an object, so its
  keys are `String(idx)` and `null` is a key like any other (`None` below).
*/
module FileSession {
  import opened Wrappers

  datatype MetaValue = Text(text: string) | Count(count: int)

  /** `meta`: `purpose`, `desc`, `participants`, and whatever key an edit sets */
  type Meta = map<string, MetaValue>

  /** `{ purpose: '', desc: '', participants: 2 }` */
  const DefaultMeta: Meta := map["purpose" := Text(""), "desc" := Text(""), "participants" := Count(2)]

  /** One labelled region as the labels object stores it */
  datatype LabelRegion = LabelRegion(id: string, start: nat, end: nat, speaker: Option<string>)

  datatype Labels = Labels(speakers: seq<string>, regions: seq<LabelRegion>)

  /** `{ speakers: ['Speaker A', 'Speaker B'], regions: [] }` */
  const DefaultLabels: Labels := Labels(["Speaker A", "Speaker B"], [])

  datatype AudioFile = AudioFile(name: string)

  /** A chosen file and the object URL created for it */
  datatype Upload = Upload(file: AudioFile, url: string)

  datatype FileRecord = FileRecord(file: AudioFile, url: string, meta: Meta, labels: Labels)

  /** `selectedIdx`: `null` or a number */
  type Index = Option<int>

  // ---------------------------------------------------------------------------
  // The new values the handlers build

  /** The records an upload appends: default meta and labels for every chosen file */
  function NewRecords(uploads: seq<Upload>): (r: seq<FileRecord>)
    ensures |r| == |uploads|
    ensures forall i :: 0 <= i < |r| ==>
      && r[i].file == uploads[i].file && r[i].url == uploads[i].url
      && r[i].meta == DefaultMeta && r[i].labels == DefaultLabels
  {
    if uploads == [] then []
    else [FileRecord(uploads[0].file, uploads[0].url, DefaultMeta, DefaultLabels)] + NewRecords(uploads[1..])
  }

  /** `prev.map((f, i) => i === idx ? { ...f, meta: { ...f.meta, [key]: value } } : f)` */
  function WithMeta(files: seq<FileRecord>, idx: Index, key: string, value: MetaValue): (r: seq<FileRecord>)
    ensures |r| == |files|
    ensures forall i :: 0 <= i < |files| && idx != Some(i) ==> r[i] == files[i]
    ensures forall i :: 0 <= i < |files| && idx == Some(i) ==>
      && r[i].file == files[i].file && r[i].url == files[i].url && r[i].labels == files[i].labels
      && key in r[i].meta && r[i].meta[key] == value
      && forall k :: k in files[i].meta && k != key ==> k in r[i].meta && r[i].meta[k] == files[i].meta[k]
    ensures forall i :: 0 <= i < |files| ==> r[i].meta.Keys <= files[i].meta.Keys + {key}
  {
    if idx.Some? && 0 <= idx.value < |files| then
      var f := files[idx.value];
      files[idx.value := f.(meta := f.meta[key := value])]
    else files
  }

  /** `prev.filter((_, i) => i !== idx)`, with `offset` the index of `files[0]` */
  function KeepOthers(files: seq<FileRecord>, idx: Index, offset: int): seq<FileRecord> {
    if files == [] then []
    else (if idx == Some(offset) then [] else [files[0]]) + KeepOthers(files[1..], idx, offset + 1)
  }

  lemma {:induction false} KeepOthersRemoves(files: seq<FileRecord>, idx: Index, offset: int)
    ensures KeepOthers(files, idx, offset)
      == if idx.Some? && offset <= idx.value < offset + |files|
         then files[..idx.value - offset] + files[idx.value - offset + 1..]
         else files
  {
    if files != [] {
      KeepOthersRemoves(files[1..], idx, offset + 1);
      if idx.Some? && offset < idx.value < offset + |files| {
        var k := idx.value - offset;
        assert files[1..][..k - 1] == files[1..k];
        assert files[1..][k - 1 + 1..] == files[k + 1..];
        assert [files[0]] + files[1..k] == files[..k];
      } else if idx == Some(offset) {
        assert files[..0] + files[1..] == files[1..];
      } else {
        assert [files[0]] + files[1..] == files;
      }
    }
  }

  /** The list a delete leaves: exactly element `idx` removed, the others in order */
  function RemoveAt(files: seq<FileRecord>, idx: Index): (r: seq<FileRecord>)
    ensures idx.Some? && 0 <= idx.value < |files| ==> r == files[..idx.value] + files[idx.value + 1..]
    ensures !(idx.Some? && 0 <= idx.value < |files|) ==> r == files
  {
    KeepOthersRemoves(files, idx, 0);
    KeepOthers(files, idx, 0)
  }

  /** `showGuide`: no files, or no selection */
  function ShowGuide(count: nat, idx: Index): bool {
    count == 0 || idx.None?
  }

  /** `isSaved`: the flag stored under the selection; a missing key is `undefined`, like false */
  function IsSaved(saved: map<Index, bool>, idx: Index): (r: bool)
    ensures idx.None? ==> !r
    ensures idx !in saved ==> !r
  {
    idx.Some? && idx in saved && saved[idx]
  }

  // ---------------------------------------------------------------------------
  // Navigation of page.js

  /** `onPrev`: `idx => idx > 0 ? idx - 1 : idx` (`null > 0` is false) */
  function StepPrev(idx: Index): Index {
    if idx.Some? && idx.value > 0 then Some(idx.value - 1) else idx
  }

  /** `onNext`: `idx => idx < files.length - 1 ? idx + 1 : idx`; both operators read `null` as 0 */
  function StepNext(idx: Index, count: nat): Index {
    match idx
    case None => if 0 < count - 1 then Some(0 + 1) else None
    case Some(k) => if k < count - 1 then Some(k + 1) else idx
  }

  /** `disablePrev` */
  function DisablePrev(idx: Index): bool {
    idx.None? || idx.value <= 0
  }

  /** `disableNext` */
  function DisableNext(idx: Index, count: nat): bool {
    idx.None? || idx.value >= count - 1
  }

  /** Stepping from a selection in range stays in range */
  lemma NavigationStaysInRange(k: int, count: nat)
    requires 0 <= k < count
    ensures StepPrev(Some(k)).Some? && 0 <= StepPrev(Some(k)).value < count
    ensures StepNext(Some(k), count).Some? && 0 <= StepNext(Some(k), count).value < count
  {
  }

  /** Prev is enabled exactly when it moves, and then it moves back by one */
  lemma PrevEnabledMoves(idx: Index)
    ensures !DisablePrev(idx) <==> StepPrev(idx) != idx
    ensures !DisablePrev(idx) ==> StepPrev(idx) == Some(idx.value - 1)
  {
  }

  /**
    For a selection, Next is enabled exactly when it moves, and then it moves on by one.
    Without a selection Next is disabled, although the updater would select index 1.
  */
  lemma NextEnabledMoves(idx: Index, count: nat)
    ensures idx.Some? ==> (!DisableNext(idx, count) <==> StepNext(idx, count) != idx)
    ensures !DisableNext(idx, count) ==> StepNext(idx, count) == Some(idx.value + 1)
    ensures DisableNext(None, count) && (count >= 2 ==> StepNext(None, count) == Some(1))
  {
  }

  /**
    Deleting does not re-index `savedStates`: the file that was at `j > k` moves to `j - 1`,
    while its flag stays under key `j`, and the key `k` (now naming the file that was at
    `k + 1`) is gone.
  */
  lemma DeleteLeavesFlagsBehind(files: seq<FileRecord>, saved: map<Index, bool>, k: int, j: int)
    requires 0 <= k < j < |files|
    ensures RemoveAt(files, Some(k))[j - 1] == files[j]
    ensures Some(j) in saved ==> Some(j) in saved - {Some(k)} && (saved - {Some(k)})[Some(j)] == saved[Some(j)]
    ensures !IsSaved(saved - {Some(k)}, Some(k))
  {
    var r := RemoveAt(files, Some(k));
    assert r == files[..k] + files[k + 1..];
    assert r[j - 1] == files[k + 1..][j - 1 - k];
  }

  /** The session state of one page */
  class Session {
    var files: seq<FileRecord>
    var selectedIdx: Index
    var savedStates: map<Index, bool>

    constructor()
      ensures files == [] && selectedIdx == None && savedStates == map[]
    {
      files := [];
      selectedIdx := None;
      savedStates := map[];
    }

    /**
      `handleUpload`: appends one default record per chosen file after the existing ones, in
      order, and selects the last index (which is -1 when nothing was chosen into an empty list).
    */
    method HandleUpload(uploads: seq<Upload>)
      modifies this
      ensures files == old(files) + NewRecords(uploads)
      ensures selectedIdx == Some(|old(files)| + |uploads| - 1)
      ensures savedStates == old(savedStates)
    {
      files := files + NewRecords(uploads);
      selectedIdx := Some(|files| - 1);
    }

    /** `handleMetaChange(idx, key, value)`: sets one meta key of file `idx` and marks it unsaved */
    method HandleMetaChange(idx: Index, key: string, value: MetaValue)
      modifies this
      ensures files == WithMeta(old(files), idx, key, value)
      ensures savedStates == old(savedStates)[idx := false]
      ensures selectedIdx == old(selectedIdx)
    {
      files := WithMeta(files, idx, key, value);
      savedStates := savedStates[idx := false];
    }

    /**
      `handleLabelsChange(labels)`. Without a selection, or with labels equal to the current
      ones, nothing changes. Otherwise the selected file takes the labels, its `participants`
      becomes the number of speakers and it is marked unsaved. A selection outside the list
      makes `prev[selectedIdx].labels` throw (`threw`), with nothing changed.
    */
    method HandleLabelsChange(labels: Labels) returns (threw: bool)
      modifies this
      ensures selectedIdx == old(selectedIdx)
      ensures threw <==> old(selectedIdx).Some? && !(0 <= old(selectedIdx).value < |old(files)|)
      ensures var sel := old(selectedIdx);
        if sel.Some? && 0 <= sel.value < |old(files)| && old(files)[sel.value].labels != labels then
          var f := old(files)[sel.value];
          && files == old(files)[sel.value := f.(labels := labels,
                                                  meta := f.meta["participants" := Count(|labels.speakers|)])]
          && savedStates == old(savedStates)[sel := false]
        else
          files == old(files) && savedStates == old(savedStates)
    {
      threw := false;
      if selectedIdx.None? {
        return;
      }
      var k := selectedIdx.value;
      if !(0 <= k < |files|) {
        threw := true;
        return;
      }
      var current := files[k];
      if current.labels == labels {
        return;
      }
      files := files[k := current.(labels := labels, meta := current.meta["participants" := Count(|labels.speakers|)])];
      savedStates := savedStates[selectedIdx := false];
    }

    /** `handleDelete(idx)`: drops element `idx` and its saved key; clears the selection if it was `idx` */
    method HandleDelete(idx: Index)
      modifies this
      ensures files == RemoveAt(old(files), idx)
      ensures savedStates == old(savedStates) - {idx}
      ensures selectedIdx == if old(selectedIdx) == idx then None else old(selectedIdx)
    {
      files := RemoveAt(files, idx);
      savedStates := savedStates - {idx};
      if selectedIdx == idx {
        selectedIdx := None;
      }
    }

    /** `handleSave`: marks the selected index saved; without a selection nothing changes */
    method HandleSave()
      modifies this
      ensures savedStates == if old(selectedIdx).None? then old(savedStates)
                             else old(savedStates)[old(selectedIdx) := true]
      ensures files == old(files) && selectedIdx == old(selectedIdx)
    {
      if selectedIdx.None? {
        return;
      }
      savedStates := savedStates[selectedIdx := true];
    }

    /** `onPrev` */
    method Prev()
      modifies this
      ensures selectedIdx == StepPrev(old(selectedIdx))
      ensures old(selectedIdx).Some? && 0 <= old(selectedIdx).value < |files| ==>
        selectedIdx.Some? && 0 <= selectedIdx.value < |files|
      ensures files == old(files) && savedStates == old(savedStates)
    {
      if selectedIdx.Some? && 0 <= selectedIdx.value < |files| {
        NavigationStaysInRange(selectedIdx.value, |files|);
      }
      selectedIdx := StepPrev(selectedIdx);
    }

    /** `onNext` */
    method Next()
      modifies this
      ensures selectedIdx == StepNext(old(selectedIdx), |files|)
      ensures old(selectedIdx).Some? && 0 <= old(selectedIdx).value < |files| ==>
        selectedIdx.Some? && 0 <= selectedIdx.value < |files|
      ensures files == old(files) && savedStates == old(savedStates)
    {
      if selectedIdx.Some? && 0 <= selectedIdx.value < |files| {
        NavigationStaysInRange(selectedIdx.value, |files|);
      }
      selectedIdx := StepNext(selectedIdx, |files|);
    }
  }

  /** After an upload of at least one file the guide is hidden and the last new file is selected */
  lemma UploadSelectsLast(before: seq<FileRecord>, uploads: seq<Upload>)
    requires |uploads| > 0
    ensures var after := before + NewRecords(uploads);
      && !ShowGuide(|after|, Some(|after| - 1))
      && after[|after| - 1].file == uploads[|uploads| - 1].file
  {
    var added := NewRecords(uploads);
    var after := before + added;
    assert after[|after| - 1] == added[|uploads| - 1];
  }
}
