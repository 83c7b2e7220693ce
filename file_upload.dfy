/**
 * The FileUpload component: it holds the chosen file and an `uploading` flag,
 * posts the file as the `file` field of a multipart form to /api/media-upload,
 * and hands the parsed JSON body to its `onSuccess` callback when the
 * response status is in the 2xx range.
 */
module FileUploadComponent {
  import opened JsText
  import opened MediaUpload

  const UploadPath := "/api/media-upload"

  /** What the component does, in order: state changes, the request, the callback. */
  datatype Event =
    | UploadingChanged(uploading: bool)
    | Posted(url: string, httpMethod: string, field: string, file: UploadedFile)
    | SuccessCallback(body: ResponseBody)

  /** `response.ok`: a status from 200 to 299. */
  predicate IsOk(status: nat) {
    200 <= status <= 299
  }

  /** The Upload button's `disabled`: an enabled button always has a file to post and no upload running. */
  predicate UploadDisabled(file: Option<UploadedFile>, uploading: bool): (d: bool)
    ensures !d ==> file.Some? && !uploading
  {
    file.None? || uploading
  }

  /** The file the input's change selects: the first of the chosen files, or none. */
  function Chosen(files: seq<UploadedFile>): Option<UploadedFile> {
    if |files| > 0 then Some(files[0]) else None
  }

  /** The events of one `handleUpload`, given the response the request gets. */
  function UploadEvents(file: Option<UploadedFile>, response: HttpResponse): (es: seq<Event>)
    ensures file.None? ==> es == []
    ensures file.Some? ==> |es| >= 3 && es[0] == UploadingChanged(true)
                           && es[1] == Posted(UploadPath, "POST", "file", file.value)
                           && es[|es| - 1] == UploadingChanged(false)
  {
    match file
    case None => []
    case Some(f) =>
      [UploadingChanged(true), Posted(UploadPath, "POST", "file", f)]
      + (if IsOk(response.status) then [SuccessCallback(response.body)] else [])
      + [UploadingChanged(false)]
  }

  /** A chosen file is posted exactly once, and with no file nothing is posted. */
  lemma OnePostPerUpload(file: Option<UploadedFile>, response: HttpResponse)
    ensures forall i :: 0 <= i < |UploadEvents(file, response)| && UploadEvents(file, response)[i].Posted? ==>
              i == 1 && file.Some? && UploadEvents(file, response)[i].file == file.value
  {
  }

  /**
   * The callback runs exactly when a file was posted and the status is 2xx; it
   * receives the response body, after the request and while `uploading` is
   * still true.
   */
  lemma CallbackIffOk(file: Option<UploadedFile>, response: HttpResponse)
    ensures (exists i :: 0 <= i < |UploadEvents(file, response)| && UploadEvents(file, response)[i].SuccessCallback?)
            <==> file.Some? && IsOk(response.status)
    ensures forall i :: 0 <= i < |UploadEvents(file, response)| && UploadEvents(file, response)[i].SuccessCallback? ==>
              i == 2 && UploadEvents(file, response)[i].body == response.body
              && UploadEvents(file, response)[i + 1] == UploadingChanged(false)
  {
    if file.Some? && IsOk(response.status) {
      assert UploadEvents(file, response)[2].SuccessCallback?;
    }
  }

  /**
   * Against the media-upload handler's responses, the callback runs exactly
   * when the upload succeeded, and the URL it is given is the gateway URL of
   * the transaction.
   */
  lemma CallbackGetsGatewayUrl(f: UploadedFile, response: HttpResponse)
    requires WellFormedResponse(response)
    ensures IsOk(response.status) <==> response.body.Uploaded?
    ensures IsOk(response.status) ==>
              UploadEvents(Some(f), response)[2] == SuccessCallback(response.body)
              && response.body.arweaveUrl == GatewayBase + response.body.transactionId
  {
  }

  /**
   * End to end: uploading a file through the media-upload handler calls
   * `onSuccess` exactly when the handler got as far as posting and the gateway
   * accepted the post, and then with the gateway URL of the signed transaction.
   */
  lemma UploadThroughHandler(f: UploadedFile, wallet: map<string, string>, net: Arweave)
    ensures IsOk(Answer(wallet, net).status) <==>
              CallCount(wallet, net) == 13 && net.post.Returns? && Accepted(Reply(net).status)
    ensures IsOk(Answer(wallet, net).status) ==>
              UploadEvents(Some(f), Answer(wallet, net))[2] == SuccessCallback(Answer(wallet, net).body)
              && Answer(wallet, net).body.arweaveUrl == GatewayBase + SignedId(net)
  {
    AnswerWellFormed(wallet, net);
    PostOutcome(wallet, net);
    CallbackGetsGatewayUrl(f, Answer(wallet, net));
  }

  /**
   * Choosing files and then pressing Upload posts the first chosen file, once,
   * under the `file` field, and leaves the button enabled again.
   */
  lemma ChosenFileIsPosted(files: seq<UploadedFile>, response: HttpResponse)
    requires |files| > 0
    ensures !UploadDisabled(Chosen(files), false)
    ensures UploadEvents(Chosen(files), response)[1] == Posted(UploadPath, "POST", "file", files[0])
    ensures forall i :: 0 <= i < |UploadEvents(Chosen(files), response)| && UploadEvents(Chosen(files), response)[i].Posted?
              ==> i == 1
  {
    OnePostPerUpload(Chosen(files), response);
  }

  /** Clearing the file input disables Upload, and a handler run without a file does nothing. */
  lemma NoFileKeepsUploadDisabled(uploading: bool, response: HttpResponse)
    ensures UploadDisabled(Chosen([]), uploading)
    ensures UploadEvents(Chosen([]), response) == []
  {
  }

  /** The component's state and what it has done so far. */
  class FileUpload {
    var file: Option<UploadedFile>
    var uploading: bool
    var history: seq<Event>

    constructor ()
      ensures file.None? && !uploading && history == []
      ensures UploadDisabled(file, uploading)
    {
      file := None;
      uploading := false;
      history := [];
    }

    /** The file input's `onChange`. */
    method OnFileChange(files: seq<UploadedFile>)
      modifies this`file
      ensures file == Chosen(files)
      ensures |files| > 0 ==> file == Some(files[0])
      ensures |files| == 0 ==> UploadDisabled(file, uploading)
    {
      if |files| > 0 {
        file := Some(files[0]);
      } else {
        file := None;
      }
    }

    /** `handleUpload`, with the response of the request as input. */
    method HandleUpload(response: HttpResponse)
      modifies this`uploading, this`history
      ensures history == old(history) + UploadEvents(file, response)
      ensures file.Some? ==> !uploading
      ensures file.None? ==> uploading == old(uploading)
    {
      if file.None? {
        return;
      }
      uploading := true;
      history := history + [UploadingChanged(true)];
      history := history + [Posted(UploadPath, "POST", "file", file.value)];
      if IsOk(response.status) {
        history := history + [SuccessCallback(response.body)];
      }
      uploading := false;
      history := history + [UploadingChanged(false)];
    }
  }
}
