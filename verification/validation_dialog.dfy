/** The keyword list of the validation dialog
    (components/projects/validation-dialog.tsx): the keywords to search for,
    the text being typed, and the error shown. Only the state updates are
    modelled; the requests themselves are outcomes handed to the caller. */
module ValidationDialog {
  import JsText
  import JsArray

  datatype Form = Form(keywords: seq<string>, newKeyword: string, error: string)

  const EmptyListError := "请至少添加一个搜索关键词"

  /** `handleAddKeyword`: the trimmed input joins the list when it is not
      blank and not already listed, and only then is the input cleared. */
  function AddKeyword(f: Form): (r: Form)
    ensures r.error == f.error
    ensures r.keywords == f.keywords || r.keywords == f.keywords + [JsText.Trim(f.newKeyword)]
    ensures r.keywords != f.keywords <==> JsText.Trim(f.newKeyword) != "" && JsText.Trim(f.newKeyword) !in f.keywords
    ensures r.newKeyword == "" <==> (r.keywords != f.keywords || f.newKeyword == "")
  {
    var t := JsText.Trim(f.newKeyword);
    if t != "" && t !in f.keywords then f.(keywords := f.keywords + [t], newKeyword := "") else f
  }

  /** `handleRemoveKeyword`: every copy of `k` goes, the rest keep their order. */
  function RemoveKeyword(f: Form, k: string): (r: Form)
    ensures k !in r.keywords
    ensures forall x :: x != k ==> (x in r.keywords <==> x in f.keywords)
    ensures r.newKeyword == f.newKeyword && r.error == f.error
    ensures JsArray.Distinct(f.keywords) ==>
      forall i :: 0 <= i < |f.keywords| && f.keywords[i] == k ==> r.keywords == f.keywords[..i] + f.keywords[i + 1..]
  {
    assert JsArray.Distinct(f.keywords) ==>
      forall i :: 0 <= i < |f.keywords| && f.keywords[i] == k ==>
        JsArray.Filter(f.keywords, JsArray.Without(k)) == f.keywords[..i] + f.keywords[i + 1..] by {
      if JsArray.Distinct(f.keywords) { RemoveAt(f.keywords, k); }
    }
    f.(keywords := JsArray.Filter(f.keywords, JsArray.Without(k)))
  }

  /** Adding keeps the list free of duplicates and the earlier keywords in place. */
  lemma AddKeepsDistinctAndOrder(f: Form)
    ensures JsArray.Distinct(f.keywords) ==> JsArray.Distinct(AddKeyword(f).keywords)
    ensures AddKeyword(f).keywords[..|f.keywords|] == f.keywords
  {
  }

  /** Adding a keyword that was not listed and removing it again gives back the list. */
  lemma AddThenRemove(f: Form)
    requires JsText.Trim(f.newKeyword) != "" && JsText.Trim(f.newKeyword) !in f.keywords
    ensures RemoveKeyword(AddKeyword(f), JsText.Trim(f.newKeyword)).keywords == f.keywords
  {
    var t := JsText.Trim(f.newKeyword);
    JsArray.FilterAppend(f.keywords, [t], JsArray.Without(t));
    JsArray.FilterAbsent(f.keywords, t);
  }

  /** Removing from a duplicate-free list takes out exactly one keyword when it is listed. */
  lemma {:induction false} RemoveFromDistinct(ks: seq<string>, k: string)
    requires JsArray.Distinct(ks)
    ensures |JsArray.Filter(ks, JsArray.Without(k))| == if k in ks then |ks| - 1 else |ks|
    decreases |ks|
  {
    if |ks| == 0 {
    } else if ks[0] == k {
      assert k !in ks[1..];
      JsArray.FilterAbsent(ks[1..], k);
    } else {
      RemoveFromDistinct(ks[1..], k);
      assert k in ks <==> k in ks[1..];
    }
  }

  /** Removing a keyword listed once closes the gap it leaves: the keywords
      before it and after it stay, in their order. */
  lemma {:induction false} RemoveAt(ks: seq<string>, k: string)
    requires JsArray.Distinct(ks)
    ensures forall i :: 0 <= i < |ks| && ks[i] == k ==> JsArray.Filter(ks, JsArray.Without(k)) == ks[..i] + ks[i + 1..]
  {
    forall i | 0 <= i < |ks| && ks[i] == k
      ensures JsArray.Filter(ks, JsArray.Without(k)) == ks[..i] + ks[i + 1..]
    {
      assert ks == ks[..i] + ([ks[i]] + ks[i + 1..]);
      assert k !in ks[..i];
      assert k !in ks[i + 1..];
      JsArray.FilterAppend(ks[..i], [ks[i]] + ks[i + 1..], JsArray.Without(k));
      JsArray.FilterAppend([ks[i]], ks[i + 1..], JsArray.Without(k));
      JsArray.FilterAbsent(ks[..i], k);
      JsArray.FilterAbsent(ks[i + 1..], k);
    }
  }

  datatype ValidateOutcome = Refused | Sent(keywords: seq<string>)

  /** The guard of `handleValidate`: an empty list sets the error and sends
      nothing; otherwise the error is cleared and the list is sent as it is. */
  function Validate(f: Form): (r: (ValidateOutcome, Form))
    ensures r.0.Refused? <==> |f.keywords| == 0
    ensures r.0.Refused? ==> r.1 == f.(error := EmptyListError)
    ensures r.0.Sent? ==> r.0.keywords == f.keywords && r.1.error == "" && r.1.keywords == f.keywords
  {
    if |f.keywords| == 0 then (Refused, f.(error := EmptyListError))
    else (Sent(f.keywords), f.(error := ""))
  }
}
