/** The older five-image picker (src/components/product/create/ImageUploadSection.tsx,
    repeated in src/routes/product.create.tsx): a list of selected files
    and the form's `images` value, which holds the same files. A file is
    identified by a number. */
module LegacyImages {
  import opened Common

  const MaxImages := 5
  const TooManyMessage := "Maximum 5 images allowed"

  /** The picker's state: the parent's `productImages` list and the form's
      `images` value (`None` while the form has none). */
  datatype Picker = Picker(files: seq<int>, formImages: Option<seq<int>>)

  const Initial := Picker([], None)

  /** `handleImageUpload` with the files of one selection and the alert
      it shows. */
  datatype Selected = Selected(picker: Picker, alert: Option<string>)

  function Select(p: Picker, chosen: Option<seq<int>>): (r: Selected)
    ensures chosen.None? ==> r == Selected(p, None)
    ensures r.alert.Some? ==> r.picker == p
    ensures |p.files| <= MaxImages ==> r.alert.None?
    ensures |p.files| <= MaxImages ==> |r.picker.files| <= MaxImages
    ensures chosen.Some? && r.alert.None? ==> |p.files| <= MaxImages
    ensures chosen.Some? && r.alert.None? && |p.files| <= MaxImages ==>
              var added := Min(|chosen.value|, MaxImages - |p.files|);
              && r.picker.files == p.files + chosen.value[..added]
              && r.picker.formImages == Some(p.formImages.GetOr([]) + chosen.value[..added])
  {
    if chosen.None? then Selected(p, None)
    else
      var admitted := JsSlice(chosen.value, 0, MaxImages - |p.files|);
      if |p.files| + |admitted| > MaxImages then Selected(p, Some(TooManyMessage))
      else
        var current := p.formImages.GetOr([]);
        Selected(Picker(p.files + admitted, Some(current + admitted)), None)
  }

  /** `removeImage(index)`: the file at `index` leaves the list and the form
      value becomes the resulting list. */
  function Remove(p: Picker, index: nat): (r: Picker)
    requires index < |p.files|
    ensures |r.files| == |p.files| - 1
    ensures forall k :: 0 <= k < index ==> r.files[k] == p.files[k]
    ensures forall k :: index <= k < |r.files| ==> r.files[k] == p.files[k + 1]
    ensures r.formImages == Some(r.files)
  {
    var rest := RemoveAt(p.files, index);
    Picker(rest, Some(rest))
  }

  /** The list and the form value hold the same files (an untouched form
      counts as an empty list). */
  predicate InSync(p: Picker) {
    p.formImages.GetOr([]) == p.files
  }

  /** Selecting and removing keep the list within five files and the form
      value equal to the list. */
  lemma {:induction false} StepsKeepSync(p: Picker, chosen: Option<seq<int>>, index: nat)
    requires InSync(p) && |p.files| <= MaxImages
    ensures InSync(Select(p, chosen).picker) && |Select(p, chosen).picker.files| <= MaxImages
    ensures index < |p.files| ==> InSync(Remove(p, index)) && |Remove(p, index).files| <= MaxImages
  {
    var r := Select(p, chosen);
    if chosen.Some? {
      var added := Min(|chosen.value|, MaxImages - |p.files|);
      assert r.picker.formImages.GetOr([]) == p.files + chosen.value[..added];
    }
  }

  /** The drop area with its "browse" prompt shows only while the list is
      empty. */
  function ShowsDropzone(p: Picker): (b: bool)
    ensures b <==> |p.files| == 0
  {
    |p.files| == 0
  }

  /** The "add more" tile shows exactly while fewer than five files are
      chosen. */
  function ShowsAddMore(p: Picker): (b: bool)
    ensures b <==> |p.files| < MaxImages
  {
    |p.files| < MaxImages
  }

  /** Once the picker shows files, the add-more tile is the only way to
      choose more, and it disappears at five: a full list offers no
      control that can select files. */
  lemma FullListOffersNoPicker(p: Picker)
    requires |p.files| == MaxImages
    ensures !ShowsDropzone(p) && !ShowsAddMore(p)
    ensures forall chosen :: Select(p, chosen).picker.files == p.files
  {
    forall chosen: Option<seq<int>>
      ensures Select(p, chosen).picker.files == p.files
    {
      if chosen.Some? {
        assert JsSlice(chosen.value, 0, 0) == [];
      }
    }
  }
}
