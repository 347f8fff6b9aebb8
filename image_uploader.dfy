/** The upload area (components/ImageUploader.tsx): the acceptance rule for a
    picked or dropped file list, and the `isDragging` highlight flag. */
module ImageUploader {
  import opened Wrappers
  import opened Text

  const ImagePrefix: string := "image/"
  const InvalidFileAlert: string := "Please upload a valid image file (PNG, JPG, etc.)."

  /** A browser `File`: its name and its declared content type (`file.type`). */
  datatype File = File(name: string, contentType: string)

  /** What `handleFileChange` does: nothing, hand the file to
      `onImageUpload`, or raise an alert. */
  datatype Dispatch = Ignored | Uploaded(file: File) | Alerted(message: string)

  /** `handleFileChange` (components/ImageUploader.tsx:14-23). `files` is the
      `FileList | null`; only its first file is looked at. */
  function HandleFileChange(files: Option<seq<File>>): (d: Dispatch)
    ensures d.Ignored? <==> files.None? || files.value == []
    ensures d.Uploaded? <==>
      files.Some? && files.value != [] && StartsWith(files.value[0].contentType, ImagePrefix)
    ensures d.Uploaded? ==> d.file == files.value[0]
    ensures d.Alerted? ==> d.message == InvalidFileAlert
  {
    match files
    case None => Ignored
    case Some(list) =>
      if list == [] then Ignored
      else if StartsWith(list[0].contentType, ImagePrefix) then Uploaded(list[0])
      else Alerted(InvalidFileAlert)
  }

  /** A file reaches `onImageUpload` only if its type starts with `image/`,
      and then unchanged; every other first file raises the alert. */
  lemma UploadedFilesAreImages(files: Option<seq<File>>)
    ensures HandleFileChange(files).Uploaded? ==>
      HandleFileChange(files).file in files.value
      && StartsWith(HandleFileChange(files).file.contentType, ImagePrefix)
    ensures files.Some? && files.value != [] && !StartsWith(files.value[0].contentType, ImagePrefix) ==>
      HandleFileChange(files) == Alerted(InvalidFileAlert)
  {
  }

  /** Files after the first are ignored. */
  lemma OnlyFirstFileCounts(first: File, others: seq<File>)
    ensures HandleFileChange(Some([first] + others)) == HandleFileChange(Some([first]))
  {
  }

  // ---------------------------------------------------------------------------
  // The `isDragging` flag

  /** The drag events the drop area handles; `itemCount` is
      `e.dataTransfer.items?.length` and `files` is `e.dataTransfer.files`. */
  datatype DragEvent =
    | DragEnter(itemCount: Option<nat>)
    | DragOver
    | DragLeave
    | Drop(files: Option<seq<File>>)

  /** The flag after one event (components/ImageUploader.tsx:25-49). */
  function DragStep(dragging: bool, e: DragEvent): (next: bool)
    ensures next <==>
      (e.DragEnter? && e.itemCount.Some? && e.itemCount.value > 0) || (dragging && (e.DragEnter? || e.DragOver?))
  {
    match e
    case DragEnter(count) => if count.Some? && count.value > 0 then true else dragging
    case DragOver => dragging
    case DragLeave => false
    case Drop(_) => false
  }

  /** The flag after a sequence of events. */
  function Replay(dragging: bool, events: seq<DragEvent>): (flag: bool)
    ensures events != [] && (events[|events| - 1].DragLeave? || events[|events| - 1].Drop?) ==> !flag
    ensures (forall j :: 0 <= j < |events| ==> events[j].DragOver?) ==> flag == dragging
  {
    if events == [] then dragging
    else DragStep(Replay(dragging, events[..|events| - 1]), events[|events| - 1])
  }

  /** An enter with items at position `i` that no later leave or drop has
      cancelled. */
  ghost predicate ArmedAt(events: seq<DragEvent>, i: nat)
    requires i < |events|
  {
    && events[i].DragEnter?
    && events[i].itemCount.Some? && events[i].itemCount.value > 0
    && forall j :: i < j < |events| ==> !events[j].DragLeave? && !events[j].Drop?
  }

  /** Starting from the initial `false`, the area is highlighted exactly when
      some enter carrying items has not yet been followed by a leave or a
      drop. */
  lemma {:induction false} DraggingIff(events: seq<DragEvent>)
    ensures Replay(false, events) <==> exists i :: 0 <= i < |events| && ArmedAt(events, i)
  {
    if events != [] {
      var n := |events| - 1;
      var prefix := events[..n];
      var e := events[n];
      DraggingIff(prefix);
      if Replay(false, events) {
        if e.DragEnter? && e.itemCount.Some? && e.itemCount.value > 0 {
          assert ArmedAt(events, n);
        } else {
          var i :| 0 <= i < |prefix| && ArmedAt(prefix, i);
          assert prefix[i] == events[i];
          assert ArmedAt(events, i);
        }
      }
      if exists i :: 0 <= i < |events| && ArmedAt(events, i) {
        var i :| 0 <= i < |events| && ArmedAt(events, i);
        if i < n {
          assert prefix[i] == events[i];
          assert ArmedAt(prefix, i);
        }
      }
    }
  }

  /** The drop area's state: React's `isDragging` cell, with the events seen
      so far as a ghost history. */
  class DropArea {
    var isDragging: bool
    ghost var Events: seq<DragEvent>

    ghost predicate Valid()
      reads this
    {
      isDragging == Replay(false, Events)
    }

    constructor ()
      ensures Valid() && Events == []
      ensures !isDragging
    {
      isDragging := false;
      Events := [];
    }

    /** `handleDragIn`: highlights only when the transfer has items. */
    method HandleDragIn(itemCount: Option<nat>)
      requires Valid()
      modifies this
      ensures Valid() && Events == old(Events) + [DragEnter(itemCount)]
      ensures isDragging == (old(isDragging) || (itemCount.Some? && itemCount.value > 0))
    {
      if itemCount.Some? && itemCount.value > 0 {
        isDragging := true;
      }
      Events := Events + [DragEnter(itemCount)];
      assert Events[..|Events| - 1] == old(Events);
    }

    /** `handleDrag` (drag-over): only stops the browser's default handling. */
    method HandleDrag()
      requires Valid()
      modifies this
      ensures Valid() && Events == old(Events) + [DragOver]
      ensures isDragging == old(isDragging)
    {
      Events := Events + [DragOver];
      assert Events[..|Events| - 1] == old(Events);
    }

    /** `handleDragOut`. */
    method HandleDragOut()
      requires Valid()
      modifies this
      ensures Valid() && Events == old(Events) + [DragLeave]
      ensures !isDragging
    {
      isDragging := false;
      Events := Events + [DragLeave];
    }

    /** `handleDrop`: clears the highlight, then applies the same acceptance
        rule as the file picker to the dropped files. */
    method HandleDrop(files: Option<seq<File>>) returns (d: Dispatch)
      requires Valid()
      modifies this
      ensures Valid() && Events == old(Events) + [Drop(files)]
      ensures !isDragging
      ensures d == HandleFileChange(files)
    {
      isDragging := false;
      Events := Events + [Drop(files)];
      d := HandleFileChange(files);
    }
  }
}
