/** The "delete category" dialog
    (src/components/category/DeleteCategoryModal.tsx). */
module DeleteCategoryModal {
  import opened Common
  import opened CategoryTypes

  /** What pressing "delete" does: the id sent in the DELETE request, if
      any, and whether the dialog is open afterwards. */
  datatype DeleteOutcome = DeleteOutcome(request: Option<int>, open: bool)

  /** `onDelete`: without a record nothing happens; with one, the request
      for its id goes out and the dialog closes at once, before the server
      answers. */
  function Confirm(open: bool, category: Option<Category>): (r: DeleteOutcome)
    ensures category.None? ==> r == DeleteOutcome(None, open)
    ensures category.Some? ==> r.request == Some(category.value.id) && !r.open
  {
    if category.None? then DeleteOutcome(None, open)
    else DeleteOutcome(Some(category.value.id), false)
  }

  /** The warning about sub-categories is shown unless the record is at
      level 3 (and also when there is no record). */
  function ShowsWarning(category: Option<Category>): (b: bool)
    ensures category.Some? && category.value.level == 3 ==> !b
    ensures category.None? ==> b
    ensures category.Some? && (category.value.level == 1 || category.value.level == 2) ==> b
  {
    category.None? || category.value.level != 3
  }

  /** The delete request succeeded: the list is refetched and the dialog
      is closed, whatever it shows by then. */
  function Succeeded(open: bool): (r: bool)
    ensures !r
  {
    false
  }

  /** What the user does with the dialog, and the server's late answer. */
  datatype DeleteEvent =
    | OpenedFor(category: Category)
    | ConfirmPressed
    | DeleteSucceeded

  /** The dialog as the page drives it: open flag, the record it is about,
      and the ids of the DELETE requests sent so far. */
  datatype DeleteView = DeleteView(open: bool, category: Option<Category>, sent: seq<int>)

  const Initial := DeleteView(false, None, [])

  function Step(v: DeleteView, e: DeleteEvent): DeleteView {
    match e
    case OpenedFor(c) => v.(open := true, category := Some(c))
    case ConfirmPressed =>
      var o := Confirm(v.open, v.category);
      v.(open := o.open, sent := v.sent + (if o.request.Some? then [o.request.value] else []))
    case DeleteSucceeded => v.(open := Succeeded(v.open))
  }

  function Run(v: DeleteView, es: seq<DeleteEvent>): DeleteView
    decreases |es|
  {
    if es == [] then v else Run(Step(v, es[0]), es[1..])
  }

  /** The ids of the records the dialog was opened for, in order. */
  function OpenedIds(es: seq<DeleteEvent>): (r: seq<int>)
    ensures forall c :: OpenedFor(c) in es ==> c.id in r
  {
    if es == [] then []
    else (if es[0].OpenedFor? then [es[0].category.id] else []) + OpenedIds(es[1..])
  }

  lemma {:induction false} SentOnlyOpenedFrom(v: DeleteView, es: seq<DeleteEvent>, ids: seq<int>)
    requires v.category.Some? ==> v.category.value.id in ids
    requires forall k :: 0 <= k < |v.sent| ==> v.sent[k] in ids
    ensures forall k :: 0 <= k < |Run(v, es).sent| ==> Run(v, es).sent[k] in ids + OpenedIds(es)
    decreases |es|
  {
    if es != [] {
      var w := Step(v, es[0]);
      var head := if es[0].OpenedFor? then [es[0].category.id] else [];
      assert OpenedIds(es) == head + OpenedIds(es[1..]);
      assert w.category.Some? ==> w.category.value.id in ids + head;
      assert forall k :: 0 <= k < |w.sent| ==> w.sent[k] in ids + head;
      SentOnlyOpenedFrom(w, es[1..], ids + head);
      assert ids + head + OpenedIds(es[1..]) == ids + OpenedIds(es);
    }
  }

  /** Whatever the user does, every DELETE request names a record the
      dialog was opened for. */
  lemma SentOnlyOpened(es: seq<DeleteEvent>)
    ensures forall k :: 0 <= k < |Run(Initial, es).sent| ==> Run(Initial, es).sent[k] in OpenedIds(es)
  {
    SentOnlyOpenedFrom(Initial, es, []);
    assert [] + OpenedIds(es) == OpenedIds(es);
  }

  /** Deleting one record, opening the dialog for another and then
      receiving the first deletion's success closes the second dialog
      without deleting its record. */
  lemma LateSuccessClosesReopened(c1: Category, c2: Category)
    ensures var v := Run(Initial, [OpenedFor(c1), ConfirmPressed, OpenedFor(c2), DeleteSucceeded]);
            !v.open && v.category == Some(c2) && v.sent == [c1.id]
  {
    var es := [OpenedFor(c1), ConfirmPressed, OpenedFor(c2), DeleteSucceeded];
    var v1 := DeleteView(true, Some(c1), []);
    var v2 := DeleteView(false, Some(c1), [c1.id]);
    var v3 := DeleteView(true, Some(c2), [c1.id]);
    assert Step(Initial, es[0]) == v1;
    assert Step(v1, ConfirmPressed) == v2;
    assert Step(v2, OpenedFor(c2)) == v3;
    var t1 := [ConfirmPressed, OpenedFor(c2), DeleteSucceeded];
    var t2 := [OpenedFor(c2), DeleteSucceeded];
    var t3 := [DeleteSucceeded];
    assert es[1..] == t1 && t1[1..] == t2 && t2[1..] == t3 && t3[1..] == [];
    assert Run(Initial, es) == Run(v1, t1);
    assert Run(v1, t1) == Run(v2, t2);
    assert Run(v2, t2) == Run(v3, t3);
    assert Run(v3, t3) == v3.(open := false);
  }
}
