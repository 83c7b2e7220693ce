/**
 * The "Create Archive" page at /archive/new: a three-field form (title,
 * description, illustration), where the illustration is the Arweave URL that
 * the file uploader reports; submitting calls the factory's `createArchive`
 * and, once that write resolves, returns to the archive list.
 */
module ArchiveNew {
  const ListPath := "/archive/list"

  /** The form object the page starts with. */
  function InitialForm(): map<string, string> {
    map["title" := "", "description" := "", "illustration" := ""]
  }

  /** A field as the page reads it; an absent key is `undefined`, which is falsy like "". */
  function Field(form: map<string, string>, name: string): string {
    if name in form then form[name] else ""
  }

  /**
   * The Create button's `disabled`: some required field is still empty. While
   * it is enabled, every argument of the write is non-empty and the
   * illustration slot shows the uploaded URL rather than the uploader.
   */
  predicate SubmitDisabled(form: map<string, string>): (d: bool)
    ensures !d ==> forall k :: 0 <= k < |CreateArchiveArgs(form)| ==> CreateArchiveArgs(form)[k] != ""
    ensures !d ==> Slot(form) == ShowValue(Field(form, "illustration"))
  {
    Field(form, "title") == "" || Field(form, "description") == "" || Field(form, "illustration") == ""
  }

  /** The page opens with Create disabled; it is enabled exactly when all three fields are filled. */
  lemma SubmitEnabledWhenFilled(form: map<string, string>)
    ensures SubmitDisabled(InitialForm())
    ensures !SubmitDisabled(form) <==>
              Field(form, "title") != [] && Field(form, "description") != [] && Field(form, "illustration") != []
  {
  }

  /** The arguments of `createArchive`: the archive's name, description and base URI, in that order. */
  function CreateArchiveArgs(form: map<string, string>): seq<string> {
    [Field(form, "title"), Field(form, "description"), Field(form, "illustration")]
  }

  /** What the illustration slot shows: the stored URL, or the uploader while there is none. */
  datatype IllustrationSlot = ShowValue(url: string) | ShowUploader

  function Slot(form: map<string, string>): IllustrationSlot {
    if Field(form, "illustration") != "" then ShowValue(Field(form, "illustration")) else ShowUploader
  }

  /**
   * The upload callback as written: it spreads the form object captured by the
   * render in which the upload started, not the form as it is when the upload
   * completes.
   */
  function UploadUpdateAsWritten(captured: map<string, string>, arweaveUrl: string): (r: map<string, string>)
    ensures Field(r, "illustration") == arweaveUrl
    ensures forall k :: k != "illustration" ==> Field(r, k) == Field(captured, k)
  {
    captured["illustration" := arweaveUrl]
  }

  /** The intended callback: set the illustration on the current form. */
  function UploadUpdate(current: map<string, string>, arweaveUrl: string): (r: map<string, string>)
    ensures Field(r, "illustration") == arweaveUrl
    ensures forall k :: k != "illustration" ==> Field(r, k) == Field(current, k)
    ensures forall k :: k in current ==> k in r
  {
    current["illustration" := arweaveUrl]
  }

  /**
   * A title typed while the upload is in flight is lost by the callback as
   * written, and kept by the intended one.
   */
  lemma StaleUploadDropsTitle()
    ensures var captured := InitialForm();
            var current := captured["title" := "Harbour songs"];
            var url := "https://arweave.net/abc";
            Field(UploadUpdateAsWritten(captured, url), "title") == ""
            && Field(current, "title") == "Harbour songs"
            && Field(UploadUpdate(current, url), "title") == "Harbour songs"
  {
  }

  /** A successful upload enables Create once title and description are filled. */
  lemma UploadCompletesForm(current: map<string, string>, arweaveUrl: string)
    requires Field(current, "title") != "" && Field(current, "description") != "" && arweaveUrl != ""
    ensures !SubmitDisabled(UploadUpdate(current, arweaveUrl))
    ensures Slot(UploadUpdate(current, arweaveUrl)) == ShowValue(arweaveUrl)
  {
  }

  /** How the awaited `createArchive` write settles. */
  datatype WriteOutcome = Resolved | Rejected

  /** What submitting does outside the form: the contract write, then possibly the navigation. */
  datatype Effect = CreateArchiveCall(functionName: string, args: seq<string>) | Navigate(path: string)

  /** `handleSubmit`: write first, and navigate only once the write has resolved. */
  function SubmitEffects(form: map<string, string>, write: WriteOutcome): seq<Effect> {
    var call := CreateArchiveCall("createArchive", CreateArchiveArgs(form));
    match write
    case Resolved => [call, Navigate(ListPath)]
    case Rejected => [call]
  }

  /**
   * A submit makes exactly one write, first. The page navigates at most
   * once, only after that write, only when it resolved, and always to the
   * archive list.
   */
  lemma NavigationFollowsWrite(form: map<string, string>, write: WriteOutcome)
    ensures |SubmitEffects(form, write)| >= 1 && SubmitEffects(form, write)[0].CreateArchiveCall?
    ensures forall i :: 0 < i < |SubmitEffects(form, write)| ==> SubmitEffects(form, write)[i] == Navigate(ListPath)
    ensures write.Resolved? <==> Navigate(ListPath) in SubmitEffects(form, write)
    ensures |SubmitEffects(form, write)| <= 2
  {
    if write.Resolved? {
      assert SubmitEffects(form, write)[1] == Navigate(ListPath);
    }
  }

  /**
   * The write carries what the user entered: the title, the description and
   * the uploaded URL, in that order, as `createArchive`'s name, description
   * and base URI.
   */
  lemma SubmitSendsForm(title: string, description: string, arweaveUrl: string, write: WriteOutcome)
    requires title != "" && description != "" && arweaveUrl != ""
    ensures var form := UploadUpdate(InitialForm()["title" := title]["description" := description], arweaveUrl);
            !SubmitDisabled(form)
            && SubmitEffects(form, write)[0] == CreateArchiveCall("createArchive", [title, description, arweaveUrl])
  {
  }

  /** The inputs the page types into: the title field and the description area. */
  predicate TypedField(name: string) {
    name == "title" || name == "description"
  }

  /** The form after a sequence of `handleInputChange` calls. */
  function ApplyEdits(form: map<string, string>, edits: seq<(string, string)>): map<string, string>
    decreases |edits|
  {
    if edits == [] then form else ApplyEdits(form[edits[0].0 := edits[0].1], edits[1..])
  }

  /**
   * Typing never sets the illustration: after any sequence of edits to the
   * title and description, the illustration is what it was, so from the
   * initial form Create stays disabled until an upload succeeds.
   */
  lemma {:induction false} TypingKeepsIllustration(form: map<string, string>, edits: seq<(string, string)>)
    requires forall i :: 0 <= i < |edits| ==> TypedField(edits[i].0)
    ensures Field(ApplyEdits(form, edits), "illustration") == Field(form, "illustration")
    ensures Field(form, "illustration") == "" ==> SubmitDisabled(ApplyEdits(form, edits))
    decreases |edits|
  {
    if edits != [] {
      TypingKeepsIllustration(form[edits[0].0 := edits[0].1], edits[1..]);
    }
  }

  /** An upload enables Create only if it reports a non-empty URL; an empty one leaves the uploader showing. */
  lemma EmptyUploadKeepsDisabled(current: map<string, string>)
    ensures SubmitDisabled(UploadUpdate(current, ""))
    ensures Slot(UploadUpdate(current, "")) == ShowUploader
  {
  }

  /** The page: its form object and what it has done to the outside world. */
  class CreateArchivePage {
    var formData: map<string, string>
    var effects: seq<Effect>

    constructor ()
      ensures formData == InitialForm() && effects == []
    {
      formData := InitialForm();
      effects := [];
    }

    /** `handleInputChange`: stores the value under the input's name, nothing else. */
    method HandleInputChange(name: string, value: string)
      modifies this`formData
      ensures formData == old(formData)[name := value]
      ensures forall k :: k != name ==> Field(formData, k) == Field(old(formData), k)
      ensures TypedField(name) && SubmitDisabled(old(formData)) && Field(old(formData), "illustration") == "" ==>
                SubmitDisabled(formData)
    {
      formData := formData[name := value];
    }

    /** The uploader's `onSuccess`, as intended: the illustration becomes the uploaded file's URL. */
    method OnUploadSuccess(arweaveUrl: string)
      modifies this`formData
      ensures formData == UploadUpdate(old(formData), arweaveUrl)
    {
      formData := formData["illustration" := arweaveUrl];
    }

    /** `handleSubmit`, with the way the awaited write settles as input. */
    method HandleSubmit(write: WriteOutcome)
      modifies this`effects
      ensures effects == old(effects) + SubmitEffects(formData, write)
    {
      effects := effects + [CreateArchiveCall("createArchive", CreateArchiveArgs(formData))];
      if write.Resolved? {
        effects := effects + [Navigate(ListPath)];
      }
    }

    /** `handleBack` (the Back and Cancel buttons): return to the list, writing nothing. */
    method HandleBack()
      modifies this`effects
      ensures effects == old(effects) + [Navigate(ListPath)]
    {
      effects := effects + [Navigate(ListPath)];
    }
  }
}
