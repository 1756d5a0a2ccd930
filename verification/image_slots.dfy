/** The two image slots of the product form
    (src/components/product/create/imageUpload/ImageUploadSection.tsx and
    type.ts): one main image and up to five description images, each
    entry uploading on its own, and the form's `images` value rebuilt from
    the entries that finished. Uploads are modelled as completion events
    that arrive one at a time; a file is identified by a number. */
module ImageSlots {
  import opened Common
  import opened ProductForm

  datatype ImageKind = Main | Description

  function KindName(k: ImageKind): string {
    match k
    case Main => "main"
    case Description => "description"
  }

  /** `imageConfigs[...].maxImages` */
  function Cap(k: ImageKind): nat {
    match k
    case Main => 1
    case Description => 5
  }

  function FullMessage(k: ImageKind): string {
    match k
    case Main => "메인 이미지는 한 개만 업로드 가능합니다"
    case Description => "최대 5장까지 업로드 가능합니다"
  }

  const UploadFailedText := "업로드 실패"
  const NotImageMessage := "이미지 파일만 드롭해주세요"

  /** `UploadedImage`: the file, its URL once uploaded, whether the upload
      is running, its error, its slot and its place in the order. */
  datatype UploadedImage = UploadedImage(
    file: int,
    url: Option<string>,
    isUploading: bool,
    error: Option<string>,
    kind: ImageKind,
    displayOrder: int)

  /** The section's state: both slots, the order counter
      (`totalImageCount`), the form's `images` value and the drag state. */
  datatype Slots = Slots(
    main: seq<UploadedImage>,
    description: seq<UploadedImage>,
    counter: int,
    formImages: seq<ImageRef>,
    dragCounter: int,
    dragOver: bool)

  const Empty := Slots([], [], 0, [], 0, false)

  function SlotOf(st: Slots, k: ImageKind): seq<UploadedImage> {
    match k
    case Main => st.main
    case Description => st.description
  }

  function WithSlot(st: Slots, k: ImageKind, imgs: seq<UploadedImage>): (r: Slots)
    ensures SlotOf(r, k) == imgs
    ensures k == Main ==> r.description == st.description
    ensures k == Description ==> r.main == st.main
    ensures r.counter == st.counter && r.formImages == st.formImages
    ensures r.dragCounter == st.dragCounter && r.dragOver == st.dragOver
  {
    match k
    case Main => st.(main := imgs)
    case Description => st.(description := imgs)
  }

  /** Every slot within its cap and holding entries of its own kind. */
  predicate Inv(st: Slots) {
    && |st.main| <= Cap(Main) && |st.description| <= Cap(Description)
    && (forall i :: 0 <= i < |st.main| ==> st.main[i].kind == Main)
    && (forall i :: 0 <= i < |st.description| ==> st.description[i].kind == Description)
  }

  // ---------------------------------------------------------------------
  // Selecting files

  /** The entries for newly admitted files: uploading, of the slot's kind,
      numbered on from the counter. */
  function NewEntries(files: seq<int>, k: ImageKind, counter: int): (r: seq<UploadedImage>)
    ensures |r| == |files|
    ensures forall i :: 0 <= i < |files| ==> r[i] == UploadedImage(files[i], None, true, None, k, counter + i)
  {
    if files == [] then [] else [UploadedImage(files[0], None, true, None, k, counter)] + NewEntries(files[1..], k, counter + 1)
  }

  /** A processor's result: the new state, the alert shown and the files
      whose uploads start. */
  datatype Processed = Processed(slots: Slots, alert: Option<string>, started: seq<int>)

  /** `createImageProcessor(kind)(files)` up to the start of the uploads. */
  function Process(st: Slots, k: ImageKind, files: Option<seq<int>>): (r: Processed)
    ensures r.alert.Some? || files.None? ==> r.slots == st && r.started == []
    ensures files.Some? && k == Main && |st.main| >= 1 ==> r.alert == Some(FullMessage(Main))
    ensures files.Some? ==> |r.started| <= |files.value| && r.started == files.value[..|r.started|]
    ensures SlotOf(r.slots, k) == SlotOf(st, k) + NewEntries(r.started, k, st.counter)
    ensures r.slots.counter == st.counter + |r.started|
    ensures r.slots == WithSlot(st, k, SlotOf(r.slots, k)).(counter := r.slots.counter)
  {
    if files.None? then Processed(st, None, [])
    else if k == Main && |st.main| >= Cap(Main) then Processed(st, Some(FullMessage(Main)), [])
    else
      var images := SlotOf(st, k);
      var admitted := JsSlice(files.value, 0, Cap(k) - |images|);
      if |images| + |admitted| > Cap(k) then Processed(st, Some(FullMessage(k)), [])
      else
        var grown := images + NewEntries(admitted, k, st.counter);
        Processed(WithSlot(st, k, grown).(counter := st.counter + |admitted|), None, admitted)
  }

  /** Within its cap, a slot takes as many of the chosen files as fit, and
      only a main slot that already holds its image refuses with an alert. */
  lemma ProcessAdmits(st: Slots, k: ImageKind, files: seq<int>)
    requires |SlotOf(st, k)| <= Cap(k)
    ensures var r := Process(st, k, Some(files));
            && (r.alert.None? <==> !(k == Main && |st.main| >= 1))
            && (r.alert.None? ==> |r.started| == Min(|files|, Cap(k) - |SlotOf(st, k)|))
  {
  }

  /** Selecting files never overfills a slot, and every other part of the
      state is kept. */
  lemma ProcessKeepsInv(st: Slots, k: ImageKind, files: Option<seq<int>>)
    requires Inv(st)
    ensures Inv(Process(st, k, files).slots)
    ensures var r := Process(st, k, files).slots;
            && r.formImages == st.formImages
            && (k == Main ==> r.description == st.description)
            && (k == Description ==> r.main == st.main)
  {
  }

  /** A full description slot ignores a selection without any alert: the
      alert for it can only appear once the slot is already overfilled. */
  lemma FullDescriptionIsSilent(st: Slots, files: seq<int>)
    requires Inv(st) && |st.description| == Cap(Description)
    ensures Process(st, Description, Some(files)) == Processed(st, None, [])
  {
    var r := Process(st, Description, Some(files));
    assert JsSlice(files, 0, 0) == [];
    assert st.description + NewEntries([], Description, st.counter) == st.description;
  }

  // ---------------------------------------------------------------------
  // Upload results

  function MarkUploaded(imgs: seq<UploadedImage>, file: int, url: string): (r: seq<UploadedImage>)
    ensures |r| == |imgs|
    ensures forall i :: 0 <= i < |imgs| ==>
              r[i] == if imgs[i].file == file then imgs[i].(url := Some(url), isUploading := false) else imgs[i]
  {
    if imgs == [] then []
    else
      var img := imgs[0];
      [if img.file == file then img.(url := Some(url), isUploading := false) else img] + MarkUploaded(imgs[1..], file, url)
  }

  function MarkFailed(imgs: seq<UploadedImage>, file: int): (r: seq<UploadedImage>)
    ensures |r| == |imgs|
    ensures forall i :: 0 <= i < |imgs| ==>
              r[i] == if imgs[i].file == file then imgs[i].(error := Some(UploadFailedText), isUploading := false) else imgs[i]
  {
    if imgs == [] then []
    else
      var img := imgs[0];
      [if img.file == file then img.(error := Some(UploadFailedText), isUploading := false) else img] + MarkFailed(imgs[1..], file)
  }

  /** A file's upload succeeded: its entries in the processor's slot get
      the URL and stop uploading. */
  function UploadSucceeded(st: Slots, k: ImageKind, file: int, url: string): (r: Slots)
    ensures SlotOf(r, k) == MarkUploaded(SlotOf(st, k), file, url)
    ensures k == Main ==> r.description == st.description
    ensures k == Description ==> r.main == st.main
    ensures r.counter == st.counter && r.formImages == st.formImages
    ensures r.dragCounter == st.dragCounter && r.dragOver == st.dragOver
  {
    WithSlot(st, k, MarkUploaded(SlotOf(st, k), file, url))
  }

  /** A file's upload failed: its entries in both slots get the error and
      stop uploading. */
  function UploadFailed(st: Slots, file: int): (r: Slots)
    ensures r.main == MarkFailed(st.main, file) && r.description == MarkFailed(st.description, file)
    ensures r.counter == st.counter && r.formImages == st.formImages
  {
    st.(main := MarkFailed(st.main, file), description := MarkFailed(st.description, file))
  }

  /** Upload results never change a slot's size or its entries' kinds or
      order numbers. */
  lemma ResultsKeepInv(st: Slots, k: ImageKind, file: int, url: string)
    requires Inv(st)
    ensures Inv(UploadSucceeded(st, k, file, url))
    ensures Inv(UploadFailed(st, file))
  {
  }

  // ---------------------------------------------------------------------
  // The form value

  /** Uploaded and no longer uploading: `img.url && !img.isUploading`. */
  predicate Finished(img: UploadedImage) {
    img.url.Some? && img.url.value != "" && !img.isUploading
  }

  function FinishedOnly(imgs: seq<UploadedImage>): (r: seq<UploadedImage>)
    ensures forall x :: x in r <==> x in imgs && Finished(x)
    ensures forall x :: Count(r, x) == if Finished(x) then Count(imgs, x) else 0
  {
    if imgs == [] then []
    else
      var rest := FinishedOnly(imgs[1..]);
      if Finished(imgs[0]) then [imgs[0]] + rest else rest
  }

  predicate OrderedByDisplay(imgs: seq<UploadedImage>) {
    forall i :: 0 <= i < |imgs| - 1 ==> imgs[i].displayOrder <= imgs[i + 1].displayOrder
  }

  function InsertByOrder(x: UploadedImage, s: seq<UploadedImage>): (r: seq<UploadedImage>)
    requires OrderedByDisplay(s)
    ensures OrderedByDisplay(r)
    ensures multiset(r) == multiset(s) + multiset{x}
    ensures |r| == |s| + 1
    ensures r[0] == x || (s != [] && r[0] == s[0])
  {
    if s == [] || x.displayOrder <= s[0].displayOrder then [x] + s
    else
      assert s == [s[0]] + s[1..];
      [s[0]] + InsertByOrder(x, s[1..])
  }

  /** `.sort((a, b) => a.displayOrder - b.displayOrder)` */
  function SortByOrder(s: seq<UploadedImage>): (r: seq<UploadedImage>)
    ensures OrderedByDisplay(r)
    ensures multiset(r) == multiset(s)
  {
    if s == [] then []
    else
      assert s == [s[0]] + s[1..];
      InsertByOrder(s[0], SortByOrder(s[1..]))
  }

  function Project(img: UploadedImage): ImageRef {
    ImageRef(OrEmpty(img.url), img.displayOrder, KindName(img.kind))
  }

  function ProjectAll(imgs: seq<UploadedImage>): (r: seq<ImageRef>)
    ensures |r| == |imgs|
    ensures forall i :: 0 <= i < |imgs| ==> r[i] == Project(imgs[i])
  {
    if imgs == [] then [] else [Project(imgs[0])] + ProjectAll(imgs[1..])
  }

  lemma SortKeepsMembers(s: seq<UploadedImage>)
    ensures forall x :: x in SortByOrder(s) <==> x in s
  {
    var r := SortByOrder(s);
    forall x ensures x in r <==> x in s {
      assert x in r <==> x in multiset(r);
      assert x in s <==> x in multiset(s);
    }
  }

  /** The entries with one display order, in their order in `s`. */
  function WithOrder(s: seq<UploadedImage>, d: int): seq<UploadedImage> {
    if s == [] then []
    else (if s[0].displayOrder == d then [s[0]] else []) + WithOrder(s[1..], d)
  }

  lemma WithOrderCons(y: UploadedImage, s: seq<UploadedImage>, d: int)
    ensures WithOrder([y] + s, d) == (if y.displayOrder == d then [y] else []) + WithOrder(s, d)
  {
    assert ([y] + s)[1..] == s;
  }

  /** An entry with a smaller display order than `x` can move in front of
      `x`'s tie group without changing any group. */
  lemma TiesStep(y: UploadedImage, x: UploadedImage, rest: seq<UploadedImage>, tail: seq<UploadedImage>, d: int)
    requires y.displayOrder < x.displayOrder
    requires WithOrder(rest, d) == (if x.displayOrder == d then [x] else []) + WithOrder(tail, d)
    ensures WithOrder([y] + rest, d) == (if x.displayOrder == d then [x] else []) + WithOrder([y] + tail, d)
  {
    WithOrderCons(y, rest, d);
    WithOrderCons(y, tail, d);
    if x.displayOrder == d {
      assert y.displayOrder != d;
    } else {
      assert ([] + WithOrder(tail, d)) == WithOrder(tail, d);
    }
  }

  /** Inserting puts the new entry in front of the entries that tie with
      it. */
  lemma {:induction false} InsertKeepsTies(x: UploadedImage, s: seq<UploadedImage>, d: int)
    requires OrderedByDisplay(s)
    ensures WithOrder(InsertByOrder(x, s), d) == (if x.displayOrder == d then [x] else []) + WithOrder(s, d)
  {
    if s == [] || x.displayOrder <= s[0].displayOrder {
      assert InsertByOrder(x, s) == [x] + s;
      WithOrderCons(x, s, d);
    } else {
      var tail := s[1..];
      var rest := InsertByOrder(x, tail);
      assert InsertByOrder(x, s) == [s[0]] + rest;
      InsertKeepsTies(x, tail, d);
      TiesStep(s[0], x, rest, tail, d);
      assert s == [s[0]] + tail;
    }
  }

  /** The sort is stable, as `Array.prototype.sort` is: entries with the
      same display order keep their relative order. */
  lemma {:induction false} SortByOrderStable(s: seq<UploadedImage>, d: int)
    ensures WithOrder(SortByOrder(s), d) == WithOrder(s, d)
  {
    if s != [] {
      var t := SortByOrder(s[1..]);
      assert SortByOrder(s) == InsertByOrder(s[0], t);
      SortByOrderStable(s[1..], d);
      InsertKeepsTies(s[0], t, d);
      assert WithOrder(s, d) == (if s[0].displayOrder == d then [s[0]] else []) + WithOrder(s[1..], d);
    }
  }

  lemma {:induction false} ProjectAllCons(x: UploadedImage, s: seq<UploadedImage>)
    ensures ProjectAll([x] + s) == [Project(x)] + ProjectAll(s)
  {
    var t := [x] + s;
    assert t[0] == x && t[1..] == s;
  }

  lemma {:induction false} ProjectInsert(x: UploadedImage, s: seq<UploadedImage>)
    requires OrderedByDisplay(s)
    ensures multiset(ProjectAll(InsertByOrder(x, s))) == multiset(ProjectAll(s)) + multiset{Project(x)}
  {
    if s == [] || x.displayOrder <= s[0].displayOrder {
      assert InsertByOrder(x, s) == [x] + s;
      ProjectAllCons(x, s);
    } else {
      var rest := InsertByOrder(x, s[1..]);
      assert InsertByOrder(x, s) == [s[0]] + rest;
      assert s == [s[0]] + s[1..];
      assert OrderedByDisplay(s[1..]);
      ProjectInsert(x, s[1..]);
      ProjectAllCons(s[0], rest);
      ProjectAllCons(s[0], s[1..]);
    }
  }

  lemma ProjectSortStep(x: UploadedImage, t: seq<UploadedImage>, rest: seq<UploadedImage>)
    requires OrderedByDisplay(t)
    requires multiset(ProjectAll(t)) == multiset(ProjectAll(rest))
    ensures multiset(ProjectAll(InsertByOrder(x, t))) == multiset(ProjectAll([x] + rest))
  {
    ProjectInsert(x, t);
    ProjectAllCons(x, rest);
  }

  /** Sorting does not change which images the entries project to, nor
      how often. */
  lemma {:induction false} ProjectSort(s: seq<UploadedImage>)
    ensures multiset(ProjectAll(SortByOrder(s))) == multiset(ProjectAll(s))
  {
    if s != [] {
      ProjectSort(s[1..]);
      ProjectSortStep(s[0], SortByOrder(s[1..]), s[1..]);
      assert s == [s[0]] + s[1..];
    }
  }

  /** The `successfulImages` both the processor and the remover write into
      the form: the finished entries of both slots, ordered by
      `displayOrder`, as `{url, displayOrder, type}`. */
  function SuccessfulImages(main: seq<UploadedImage>, description: seq<UploadedImage>): (r: seq<ImageRef>)
    ensures forall i :: 0 <= i < |r| - 1 ==> r[i].displayOrder <= r[i + 1].displayOrder
    ensures multiset(r) == multiset(ProjectAll(FinishedOnly(main + description)))
  {
    ProjectSort(FinishedOnly(main + description));
    ProjectAll(SortByOrder(FinishedOnly(main + description)))
  }

  /** The form value holds exactly the finished uploads of both slots. */
  lemma SuccessfulImagesAreFinished(main: seq<UploadedImage>, description: seq<UploadedImage>)
    ensures var r := SuccessfulImages(main, description);
            && (forall y :: y in r ==> exists x :: x in main + description && Finished(x) && y == Project(x))
            && (forall x :: x in main + description && Finished(x) ==> Project(x) in r)
  {
    var sorted := SortByOrder(FinishedOnly(main + description));
    SortKeepsMembers(FinishedOnly(main + description));
    SuccessfulMembers(main + description, sorted, ProjectAll(sorted));
  }

  lemma SuccessfulMembers(all: seq<UploadedImage>, sorted: seq<UploadedImage>, r: seq<ImageRef>)
    requires forall x :: x in sorted <==> x in all && Finished(x)
    requires |r| == |sorted| && forall i :: 0 <= i < |sorted| ==> r[i] == Project(sorted[i])
    ensures forall y :: y in r ==> exists x :: x in all && Finished(x) && y == Project(x)
    ensures forall x :: x in all && Finished(x) ==> Project(x) in r
  {
    forall x | x in all && Finished(x)
      ensures Project(x) in r
    {
      var i :| 0 <= i < |sorted| && sorted[i] == x;
      assert r[i] == Project(x);
    }
    forall y | y in r
      ensures exists x :: x in all && Finished(x) && y == Project(x)
    {
      var i :| 0 <= i < |r| && r[i] == y;
      assert sorted[i] in sorted;
      assert sorted[i] in all && Finished(sorted[i]) && y == Project(sorted[i]);
    }
  }

  /** After the uploads settle, the form's `images` is rebuilt from the
      current slots. */
  function Settle(st: Slots): (r: Slots)
    ensures r.formImages == SuccessfulImages(st.main, st.description)
    ensures r.main == st.main && r.description == st.description && r.counter == st.counter
    ensures r.dragCounter == st.dragCounter && r.dragOver == st.dragOver
  {
    st.(formImages := SuccessfulImages(st.main, st.description))
  }

  /** An image reaches the form exactly when its upload finished, whatever
      its slot. */
  lemma FormHoldsFinishedUploads(st: Slots, x: UploadedImage)
    requires x in st.main || x in st.description
    ensures Finished(x) ==> Project(x) in Settle(st).formImages
  {
    SuccessfulImagesAreFinished(st.main, st.description);
  }

  // ---------------------------------------------------------------------
  // Removing

  /** `createImageRemover(kind)(index)`: the entry at `index` leaves its
      slot, the counter goes down by one and the form value is rebuilt. */
  function Remove(st: Slots, k: ImageKind, index: nat): (r: Slots)
    requires index < |SlotOf(st, k)|
    ensures SlotOf(r, k) == RemoveAt(SlotOf(st, k), index)
    ensures |SlotOf(r, k)| == |SlotOf(st, k)| - 1
    ensures k == Main ==> r.description == st.description
    ensures k == Description ==> r.main == st.main
    ensures r.counter == st.counter - 1
    ensures r.formImages == SuccessfulImages(r.main, r.description)
  {
    var s := WithSlot(st, k, RemoveAt(SlotOf(st, k), index)).(counter := st.counter - 1);
    Settle(s)
  }

  lemma RemoveKeepsInv(st: Slots, k: ImageKind, index: nat)
    requires Inv(st) && index < |SlotOf(st, k)|
    ensures Inv(Remove(st, k, index))
  {
  }

  /** A selection that fits in the description slot is admitted whole. */
  lemma DescriptionAdmitsAll(st: Slots, files: seq<int>)
    requires |st.description| + |files| <= Cap(Description)
    ensures var r := Process(st, Description, Some(files));
            && r.alert.None? && r.started == files
            && r.slots.description == st.description + NewEntries(files, Description, st.counter)
            && r.slots.counter == st.counter + |files|
  {
    ProcessAdmits(st, Description, files);
    var r := Process(st, Description, Some(files));
    assert |r.started| == |files|;
    assert files[..|files|] == files;
  }

  /** Because removal lowers the counter, the next selection reuses an
      order number: when the newest description entry holds the last number
      handed out, removing any other entry and then choosing one file gives
      the new entry that same number. */
  lemma DisplayOrderReused(st: Slots, index: nat, file: int)
    requires |st.description| <= Cap(Description)
    requires |st.description| >= 2 && index < |st.description| - 1
    requires st.description[|st.description| - 1].displayOrder == st.counter - 1
    ensures var d := Process(Remove(st, Description, index), Description, Some([file])).slots.description;
            && |d| == |st.description|
            && d[|d| - 1].file == file
            && d[|d| - 2] == st.description[|st.description| - 1]
            && d[|d| - 1].displayOrder == d[|d| - 2].displayOrder
  {
    var s2 := Remove(st, Description, index);
    var n := |st.description|;
    assert |s2.description| == n - 1 && s2.counter == st.counter - 1;
    assert s2.description[n - 2] == st.description[n - 1];
    DescriptionAdmitsAll(s2, [file]);
    var d := Process(s2, Description, Some([file])).slots.description;
    var e := NewEntries([file], Description, s2.counter);
    assert e == [UploadedImage(file, None, true, None, Description, st.counter - 1)];
    assert d == s2.description + e;
    assert d[n - 1] == e[0] && d[n - 2] == s2.description[n - 2];
  }

  // ---------------------------------------------------------------------
  // Dragging and dropping

  /** A dropped file: its identity and its MIME type. */
  datatype DroppedFile = DroppedFile(file: int, mime: string)

  predicate IsImage(f: DroppedFile) {
    |f.mime| >= 6 && f.mime[..6] == "image/"
  }

  function ImageFiles(fs: seq<DroppedFile>): (r: seq<int>)
    ensures |r| <= |fs|
    ensures forall x :: x in r <==> exists f :: f in fs && IsImage(f) && f.file == x
  {
    if fs == [] then []
    else
      var rest := ImageFiles(fs[1..]);
      assert forall f :: f in fs[1..] ==> f in fs;
      assert forall f :: f in fs ==> f == fs[0] || f in fs[1..];
      if IsImage(fs[0]) then [fs[0].file] + rest else rest
  }

  /** The drop handler: the drag state is cleared; without files nothing
      else happens; without image files an alert; otherwise the image files
      go to the slot's processor. */
  function Drop(st: Slots, k: ImageKind, fs: seq<DroppedFile>): (r: Processed)
    ensures r.slots.dragCounter == 0 && !r.slots.dragOver
    ensures fs == [] ==> r == Processed(st.(dragCounter := 0, dragOver := false), None, [])
    ensures fs != [] && ImageFiles(fs) == [] ==> r == Processed(st.(dragCounter := 0, dragOver := false), Some(NotImageMessage), [])
    ensures forall x :: x in r.started ==> exists f :: f in fs && IsImage(f) && f.file == x
  {
    var cleared := st.(dragCounter := 0, dragOver := false);
    if fs == [] then Processed(cleared, None, [])
    else
      var images := ImageFiles(fs);
      if images == [] then Processed(cleared, Some(NotImageMessage), [])
      else
        var r := Process(cleared, k, Some(images));
        assert forall x :: x in r.started ==> x in images;
        r
  }

  function DragEnter(st: Slots, hasItems: bool): (r: Slots)
    ensures r.dragCounter == st.dragCounter + 1
    ensures r.dragOver == (hasItems || st.dragOver)
  {
    st.(dragCounter := st.dragCounter + 1, dragOver := hasItems || st.dragOver)
  }

  /** The leave handler as written: it tests the counter the handler was
      created with, the value before this leave. */
  function DragLeaveAsWritten(st: Slots): (r: Slots)
    ensures r.dragCounter == st.dragCounter - 1
    ensures r.dragCounter == 0 ==> r.dragOver == st.dragOver
    ensures r.dragOver ==> st.dragOver
    ensures r.(dragCounter := st.dragCounter, dragOver := st.dragOver) == st
  {
    st.(dragCounter := st.dragCounter - 1, dragOver := if st.dragCounter == 0 then false else st.dragOver)
  }

  /** The leave handler testing the decremented counter. */
  function DragLeave(st: Slots): (r: Slots)
    ensures r.dragCounter == st.dragCounter - 1
    ensures r.dragCounter == 0 ==> !r.dragOver
  {
    st.(dragCounter := st.dragCounter - 1, dragOver := if st.dragCounter - 1 == 0 then false else st.dragOver)
  }

  /** Dragging a file in and out again, as written, leaves the drop zone
      highlighted; only a second, unmatched leave clears it. */
  lemma HighlightStuckAfterLeave()
    ensures DragLeaveAsWritten(DragEnter(Empty, true)).dragOver
    ensures DragLeaveAsWritten(DragEnter(Empty, true)).dragCounter == 0
    ensures !DragLeaveAsWritten(DragLeaveAsWritten(DragEnter(Empty, true))).dragOver
  {
  }

  function Enters(st: Slots, n: nat): (r: Slots)
    ensures r.dragCounter == st.dragCounter + n
    ensures n > 0 ==> r.dragOver
  {
    if n == 0 then st else DragEnter(Enters(st, n - 1), true)
  }

  function Leaves(st: Slots, n: nat): (r: Slots)
    ensures r.dragCounter == st.dragCounter - n
  {
    if n == 0 then st else DragLeave(Leaves(st, n - 1))
  }

  /** With the corrected handler, any number of enters followed by as
      many leaves clears the highlight. */
  lemma {:induction false} BalancedDragClears(st: Slots, n: nat)
    requires st.dragCounter == 0
    requires n > 0
    ensures !Leaves(Enters(st, n), n).dragOver
    ensures Leaves(Enters(st, n), n).dragCounter == 0
  {
    var e := Enters(st, n);
    assert Leaves(e, n) == DragLeave(Leaves(e, n - 1));
  }
}
