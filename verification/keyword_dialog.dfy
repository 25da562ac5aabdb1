/** The form state of the keyword dialog (components/keywords/keyword-dialog.tsx):
    the keyword's fields, its long tails, the projects it is linked to, and
    the long tail being typed. Only the state updates are modelled. */
module KeywordDialog {
  import opened Wrappers
  import JsText
  import JsArray

  datatype FormData = FormData(name: string, popularity: int, description: string,
                               longTails: seq<string>, projectIds: seq<string>)

  datatype Editor = Editor(form: FormData, newLongTail: string)

  datatype ProjectRef = ProjectRef(id: string, name: string, status: string)

  /** A keyword as the dialog receives it for editing. */
  datatype Keyword = Keyword(id: string, name: string, popularity: int, description: Option<string>,
                             longTails: seq<string>, projects: seq<ProjectRef>)

  const EmptyForm := FormData("", 0, "", [], [])

  function ProjectIds(ps: seq<ProjectRef>): (r: seq<string>)
    ensures |r| == |ps| && forall i :: 0 <= i < |ps| ==> r[i] == ps[i].id
  {
    if |ps| == 0 then [] else [ps[0].id] + ProjectIds(ps[1..])
  }

  /** The reset when the dialog opens: a blank form for a new keyword, the
      keyword's own values when editing one (a missing or empty description
      shows as empty text). A closed dialog keeps its form. */
  function OnOpen(open: bool, keyword: Option<Keyword>, form: FormData): (r: FormData)
    ensures !open ==> r == form
    ensures open && keyword.None? ==> r == EmptyForm
    ensures open && keyword.Some? ==>
              && r.name == keyword.value.name && r.popularity == keyword.value.popularity
              && r.longTails == keyword.value.longTails
              && |r.projectIds| == |keyword.value.projects|
              && (forall i :: 0 <= i < |r.projectIds| ==> r.projectIds[i] == keyword.value.projects[i].id)
              && (keyword.value.description.None? ==> r.description == "")
              && (keyword.value.description.Some? ==> r.description == keyword.value.description.value)
  {
    if !open then form
    else match keyword
      case None => EmptyForm
      case Some(k) => FormData(k.name, k.popularity, k.description.GetOr(""), k.longTails, ProjectIds(k.projects))
  }

  /** `addLongTail`: a non-blank input is appended trimmed, duplicates
      allowed, and the input is cleared; a blank input changes nothing. */
  function AddLongTail(e: Editor): (r: Editor)
    ensures JsText.AllSpace(e.newLongTail) ==> r == e
    ensures !JsText.AllSpace(e.newLongTail) ==>
              && r.form == e.form.(longTails := e.form.longTails + [JsText.Trim(e.newLongTail)])
              && r.newLongTail == ""
  {
    JsText.TrimEmptyIffAllSpace(e.newLongTail);
    var t := JsText.Trim(e.newLongTail);
    if t != "" then Editor(e.form.(longTails := e.form.longTails + [t]), "") else e
  }

  /** The elements of `a` whose position, counted from `offset`, is not
      `index` (`filter((_, i) => i !== index)`). */
  function WithoutIndex(a: seq<string>, index: int, offset: nat): (r: seq<string>)
    decreases |a|
  {
    if |a| == 0 then []
    else if offset == index then WithoutIndex(a[1..], index, offset + 1)
    else [a[0]] + WithoutIndex(a[1..], index, offset + 1)
  }

  /** Removing by a position outside the walked range keeps everything; inside
      it, exactly that element goes. */
  lemma {:induction false} WithoutIndexSlices(a: seq<string>, index: int, offset: nat)
    ensures !(offset <= index < offset + |a|) ==> WithoutIndex(a, index, offset) == a
    ensures offset <= index < offset + |a| ==>
              WithoutIndex(a, index, offset) == a[..index - offset] + a[index - offset + 1..]
    decreases |a|
  {
    if |a| > 0 {
      WithoutIndexSlices(a[1..], index, offset + 1);
      if offset == index {
      } else if offset <= index < offset + |a| {
        assert a[1..][..index - offset - 1] == a[1..index - offset];
        assert a[1..][index - offset - 1 + 1..] == a[index - offset + 1..];
        assert [a[0]] + a[1..index - offset] == a[..index - offset];
      } else {
        assert [a[0]] + a[1..] == a;
      }
    }
  }

  /** `removeLongTail(index)`: the form with the long tail at `index` removed. */
  function RemoveLongTail(e: Editor, index: int): (r: Editor)
    ensures 0 <= index < |e.form.longTails| ==>
              r.form.longTails == e.form.longTails[..index] + e.form.longTails[index + 1..]
    ensures !(0 <= index < |e.form.longTails|) ==> r == e
    ensures r.form == e.form.(longTails := r.form.longTails) && r.newLongTail == e.newLongTail
  {
    WithoutIndexSlices(e.form.longTails, index, 0);
    e.(form := e.form.(longTails := WithoutIndex(e.form.longTails, index, 0)))
  }

  /** `toggleProject(id)`: a linked project is unlinked (every copy), an
      unlinked one is appended. */
  function ToggleProject(e: Editor, id: string): (r: Editor)
    ensures id in r.form.projectIds <==> id !in e.form.projectIds
    ensures forall x :: x != id ==> (x in r.form.projectIds <==> x in e.form.projectIds)
    ensures r.form == e.form.(projectIds := r.form.projectIds) && r.newLongTail == e.newLongTail
  {
    var ids := e.form.projectIds;
    e.(form := e.form.(projectIds := if id in ids then JsArray.Filter(ids, JsArray.Without(id)) else ids + [id]))
  }

  /** Toggling an unlinked project twice gives back the exact list. */
  lemma ToggleTwice(e: Editor, id: string)
    requires id !in e.form.projectIds
    ensures ToggleProject(ToggleProject(e, id), id) == e
  {
    var ids := e.form.projectIds;
    JsArray.FilterAppend(ids, [id], JsArray.Without(id));
    JsArray.FilterAbsent(ids, id);
  }
}
