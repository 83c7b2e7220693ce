/**
 * The `POST /api/media-upload` handler: it reads the multipart form, checks
 * that a file was sent, that the storage wallet is configured and funded,
 * builds, tags, signs and self-verifies an Arweave data transaction, posts it,
 * and answers with a JSON envelope.
 *
 * Every call into the Arweave client library (and the request's own
 * `formData()`) is an input: the value it returns or the value it throws.
 * The handler returns the HTTP response together with the trace of the
 * library calls it made, in order.
 */
module MediaUpload {
  import opened JsText

  /** A thrown value: an `Error` instance with its message, or anything else. */
  datatype Thrown = ErrorInstance(message: string) | OtherThrown

  /** The outcome of one awaited library call. */
  datatype Call<T> = Returns(value: T) | Throws(thrown: Thrown)

  datatype UploadedFile = UploadedFile(name: string, mimeType: string, bytes: seq<bv8>)

  /** A multipart form entry: a file, or a plain text value sent under the same name. */
  datatype FormEntry = FileEntry(file: UploadedFile) | TextEntry(text: string)

  /** What `arweave.transactions.post` resolves to. */
  datatype PostReply = PostReply(status: nat, data: string)

  /**
   * What each awaited call does on this request. `sign` yields the id the
   * signature gives the transaction; `priceInAr` is `winstonToAr` of the price.
   */
  datatype Arweave = Arweave(
    formData: Call<Option<FormEntry>>,
    address: Call<string>,
    balance: Call<string>,
    createTransaction: Call<()>,
    price: Call<string>,
    priceInAr: string,
    sign: Call<string>,
    verify: Call<bool>,
    post: Call<PostReply>)

  /** The external calls, as the trace records them. */
  datatype ExtCall =
    | ReadFormData
    | JwkToAddress
    | GetBalance(address: string)
    | ReadFile
    | CreateTransaction(data: seq<bv8>)
    | AddTag(name: string, value: string)
    | GetPrice(byteLength: nat)
    | Sign
    | Verify
    | PostTransaction

  /** The JSON body: `{error}`, `{success: false, error}` or the success record. */
  datatype ResponseBody =
    | MissingFile(error: string)
    | Failed(error: string)
    | Uploaded(transactionId: string, arweaveUrl: string, cost: string, message: string)

  datatype HttpResponse = HttpResponse(status: nat, body: ResponseBody)

  const NoFileMessage := "No file uploaded"
  const WalletMessage := "Arweave wallet not configured. Please set ARWEAVE_WALLET_KEY environment variable."
  const BalanceMessage := "Insufficient wallet balance. You need AR tokens to upload files."
  const VerifyMessage := "Transaction verification failed"
  const StatusPrefix := "Transaction failed with status: "
  const SuccessMessage := "File uploaded to Arweave successfully!"
  const GatewayBase := "https://arweave.net/"
  /** What the runtime throws when `arrayBuffer` is called on a text entry. */
  const NotAFileMessage := "file.arrayBuffer is not a function"

  /** `!file`: no entry, or an empty text value; a File object is always truthy, even an empty one. */
  predicate Falsy(entry: Option<FormEntry>): (b: bool)
    ensures entry.Some? && entry.value.FileEntry? ==> !b
  {
    entry.None? || entry.value == TextEntry("")
  }

  /** The catch block's message: the `Error`'s message, or "Upload failed". */
  function ErrorText(t: Thrown): string {
    match t
    case ErrorInstance(message) => message
    case OtherThrown => "Upload failed"
  }

  /** The catch block's response. */
  function FailureResponse(t: Thrown): HttpResponse {
    HttpResponse(500, Failed(ErrorText(t)))
  }

  /** The four tags, in the order the handler adds them. */
  function FileTags(f: UploadedFile): seq<ExtCall> {
    [AddTag("Content-Type", f.mimeType), AddTag("File-Name", f.name),
     AddTag("App-Name", "ArweaveUploader"), AddTag("App-Version", "1.0.0")]
  }

  /**
   * The calls the handler makes when nothing stops it early; every trace is a
   * prefix of this one.
   */
  function PlannedCalls(net: Arweave): (calls: seq<ExtCall>)
    ensures |calls| == 13
  {
    var f := if net.formData.Returns? && net.formData.value.Some? && net.formData.value.value.FileEntry?
             then net.formData.value.value.file else UploadedFile("", "", []);
    var address := if net.address.Returns? then net.address.value else "";
    [ReadFormData, JwkToAddress, GetBalance(address), ReadFile, CreateTransaction(f.bytes)]
    + FileTags(f)
    + [GetPrice(|f.bytes|), Sign, Verify, PostTransaction]
  }

  /** Posting succeeded: the gateway answered 200, or 208 for a transaction it already had. */
  predicate Accepted(status: nat) {
    status == 200 || status == 208
  }

  /** The thrown value of a call that throws (a placeholder otherwise). */
  function ThrownBy<T>(c: Call<T>): Thrown {
    if c.Throws? then c.thrown else OtherThrown
  }

  /** The form carried a truthy `file` entry. */
  predicate FileSent(net: Arweave) {
    net.formData.Returns? && !Falsy(net.formData.value)
  }

  /** The `file` entry was a plain text value rather than a file. */
  predicate TextSent(net: Arweave) {
    FileSent(net) && net.formData.value.value.TextEntry?
  }

  /** The transaction id produced by signing (a placeholder when signing threw). */
  function SignedId(net: Arweave): string {
    if net.sign.Returns? then net.sign.value else ""
  }

  /** The gateway's reply to the post (a placeholder when posting threw). */
  function Reply(net: Arweave): PostReply {
    if net.post.Returns? then net.post.value else PostReply(0, "")
  }

  const NoFileResponse := HttpResponse(400, MissingFile(NoFileMessage))

  /** A `{success: false, error}` answer with status 500. */
  function ErrorResponse(message: string): HttpResponse {
    HttpResponse(500, Failed(message))
  }

  /** The success answer for a posted transaction. */
  function UploadedResponse(id: string, priceInAr: string): HttpResponse {
    HttpResponse(200, Uploaded(id, GatewayBase + id, priceInAr + " AR", SuccessMessage))
  }

  /** The answer when the gateway rejected the post. */
  function RejectedResponse(reply: PostReply): HttpResponse {
    ErrorResponse(StatusPrefix + NatToString(reply.status) + ". " + reply.data)
  }

  /** The shapes of response the handler can give. */
  predicate WellFormedResponse(r: HttpResponse) {
    (r.status == 200 && r.body.Uploaded? && r.body.arweaveUrl == GatewayBase + r.body.transactionId)
    || r == NoFileResponse
    || (r.status == 500 && r.body.Failed?)
  }

  /**
   * How many of the planned calls the handler makes: where the first early
   * return, failed check or thrown call stops it.
   */
  function CallCount(wallet: map<string, string>, net: Arweave): (n: nat)
    ensures 1 <= n <= 13
  {
    if net.formData.Throws? || Falsy(net.formData.value) || |wallet| == 0 then 1
    else if net.address.Throws? then 2
    else if net.balance.Throws? || net.balance.value == "0" then 3
    else if net.formData.value.value.TextEntry? then 4
    else if net.createTransaction.Throws? then 5
    else if net.price.Throws? then 10
    else if net.sign.Throws? then 11
    else if net.verify.Throws? || !net.verify.value then 12
    else 13
  }

  /** The handler's answer: the early returns, the catch block, or the outcome of the post. */
  function Answer(wallet: map<string, string>, net: Arweave): HttpResponse {
    if net.formData.Throws? then FailureResponse(net.formData.thrown)
    else if Falsy(net.formData.value) then NoFileResponse
    else if |wallet| == 0 then ErrorResponse(WalletMessage)
    else if net.address.Throws? then FailureResponse(net.address.thrown)
    else if net.balance.Throws? then FailureResponse(net.balance.thrown)
    else if net.balance.value == "0" then ErrorResponse(BalanceMessage)
    else if net.formData.value.value.TextEntry? then FailureResponse(ErrorInstance(NotAFileMessage))
    else if net.createTransaction.Throws? then FailureResponse(net.createTransaction.thrown)
    else if net.price.Throws? then FailureResponse(net.price.thrown)
    else if net.sign.Throws? then FailureResponse(net.sign.thrown)
    else if net.verify.Throws? then FailureResponse(net.verify.thrown)
    else if !net.verify.value then ErrorResponse(VerifyMessage)
    else if net.post.Throws? then FailureResponse(net.post.thrown)
    else if Accepted(net.post.value.status) then UploadedResponse(net.sign.value, net.priceInAr)
    else RejectedResponse(net.post.value)
  }

  /** The handler. `wallet` is the parsed key object, as a map from key name to value. */
  method Post(wallet: map<string, string>, net: Arweave) returns (response: HttpResponse, calls: seq<ExtCall>)
    ensures response == Answer(wallet, net)
    ensures calls == PlannedCalls(net)[..CallCount(wallet, net)]
  {
    calls := [ReadFormData];
    if net.formData.Throws? {
      return FailureResponse(net.formData.thrown), calls;
    }
    var entry := net.formData.value;
    if Falsy(entry) {
      return NoFileResponse, calls;
    }

    if |wallet| == 0 {
      return ErrorResponse(WalletMessage), calls;
    }

    calls := calls + [JwkToAddress];
    if net.address.Throws? {
      return FailureResponse(net.address.thrown), calls;
    }
    calls := calls + [GetBalance(net.address.value)];
    if net.balance.Throws? {
      return FailureResponse(net.balance.thrown), calls;
    }
    if net.balance.value == "0" {
      return ErrorResponse(BalanceMessage), calls;
    }

    calls := calls + [ReadFile];
    if entry.value.TextEntry? {
      return FailureResponse(ErrorInstance(NotAFileMessage)), calls;
    }
    var file := entry.value.file;

    calls := calls + [CreateTransaction(file.bytes)];
    if net.createTransaction.Throws? {
      return FailureResponse(net.createTransaction.thrown), calls;
    }
    calls := calls + FileTags(file);
    assert calls == PlannedCalls(net)[..9];

    calls := calls + [GetPrice(|file.bytes|)];
    if net.price.Throws? {
      return FailureResponse(net.price.thrown), calls;
    }

    calls := calls + [Sign];
    if net.sign.Throws? {
      return FailureResponse(net.sign.thrown), calls;
    }
    var id := net.sign.value;

    calls := calls + [Verify];
    if net.verify.Throws? {
      return FailureResponse(net.verify.thrown), calls;
    }
    if !net.verify.value {
      return ErrorResponse(VerifyMessage), calls;
    }

    calls := calls + [PostTransaction];
    assert calls == PlannedCalls(net)[..13];
    if net.post.Throws? {
      return FailureResponse(net.post.thrown), calls;
    }
    var reply := net.post.value;
    if Accepted(reply.status) {
      response := UploadedResponse(id, net.priceInAr);
    } else {
      response := RejectedResponse(reply);
    }
  }

  /** Every answer is a gateway URL for the signed id, the 400 for a missing file, or a 500 with an error. */
  lemma AnswerWellFormed(wallet: map<string, string>, net: Arweave)
    ensures WellFormedResponse(Answer(wallet, net))
  {
  }

  /**
   * The only 400 is a missing or empty `file` field, and it is answered after
   * reading the form and nothing else; so is a form that cannot be read, and
   * an unconfigured wallet.
   */
  lemma MissingFileIsTheOnly400(wallet: map<string, string>, net: Arweave)
    ensures Answer(wallet, net).status == 400 <==> net.formData.Returns? && !FileSent(net)
    ensures Answer(wallet, net).status == 400 ==> Answer(wallet, net) == NoFileResponse && CallCount(wallet, net) == 1
    ensures net.formData.Throws? ==>
              Answer(wallet, net) == FailureResponse(ThrownBy(net.formData)) && CallCount(wallet, net) == 1
    ensures FileSent(net) && |wallet| == 0 ==>
              Answer(wallet, net) == ErrorResponse(WalletMessage) && CallCount(wallet, net) == 1
    ensures CallCount(wallet, net) >= 2 ==> FileSent(net) && |wallet| > 0
  {
  }

  /**
   * A zero balance ends the request right after the balance query, so nothing
   * is signed without funds; a text value under `file` fails at reading its
   * bytes, so every transaction carries a real file.
   */
  lemma ChecksBeforeTransaction(wallet: map<string, string>, net: Arweave)
    ensures CallCount(wallet, net) >= 3 && net.balance == Returns("0") ==>
              Answer(wallet, net) == ErrorResponse(BalanceMessage) && CallCount(wallet, net) == 3
    ensures CallCount(wallet, net) >= 4 ==> net.balance.Returns? && net.balance != Returns("0")
    ensures CallCount(wallet, net) >= 4 && TextSent(net) ==>
              Answer(wallet, net) == ErrorResponse(NotAFileMessage) && CallCount(wallet, net) == 4
    ensures CallCount(wallet, net) >= 5 ==> FileSent(net) && !TextSent(net)
  {
  }

  /**
   * A transaction that fails its own verification is never posted; once
   * posted, the gateway's status decides between the success record and the
   * "Transaction failed with status" error.
   */
  lemma PostOutcome(wallet: map<string, string>, net: Arweave)
    ensures CallCount(wallet, net) == 13 ==> net.verify == Returns(true)
    ensures CallCount(wallet, net) >= 12 && net.verify == Returns(false) ==>
              Answer(wallet, net) == ErrorResponse(VerifyMessage) && CallCount(wallet, net) == 12
    ensures CallCount(wallet, net) == 13 && net.post.Returns? && Accepted(Reply(net).status) ==>
              net.sign.Returns? && Answer(wallet, net) == UploadedResponse(SignedId(net), net.priceInAr)
    ensures CallCount(wallet, net) == 13 && net.post.Returns? && !Accepted(Reply(net).status) ==>
              Answer(wallet, net) == RejectedResponse(Reply(net))
    ensures Answer(wallet, net).status == 200 <==>
              CallCount(wallet, net) == 13 && net.post.Returns? && Accepted(Reply(net).status)
  {
  }

  /** A library call that throws ends the request there, with the catch block's answer. */
  lemma ThrowEndsRequest(wallet: map<string, string>, net: Arweave)
    ensures net.address.Throws? && CallCount(wallet, net) >= 2 ==>
              Answer(wallet, net) == FailureResponse(ThrownBy(net.address)) && CallCount(wallet, net) == 2
    ensures net.balance.Throws? && CallCount(wallet, net) >= 3 ==>
              Answer(wallet, net) == FailureResponse(ThrownBy(net.balance)) && CallCount(wallet, net) == 3
    ensures net.createTransaction.Throws? && CallCount(wallet, net) >= 5 ==>
              Answer(wallet, net) == FailureResponse(ThrownBy(net.createTransaction)) && CallCount(wallet, net) == 5
    ensures net.price.Throws? && CallCount(wallet, net) >= 10 ==>
              Answer(wallet, net) == FailureResponse(ThrownBy(net.price)) && CallCount(wallet, net) == 10
    ensures net.sign.Throws? && CallCount(wallet, net) >= 11 ==>
              Answer(wallet, net) == FailureResponse(ThrownBy(net.sign)) && CallCount(wallet, net) == 11
    ensures net.verify.Throws? && CallCount(wallet, net) >= 12 ==>
              Answer(wallet, net) == FailureResponse(ThrownBy(net.verify)) && CallCount(wallet, net) == 12
    ensures net.post.Throws? && CallCount(wallet, net) == 13 ==>
              Answer(wallet, net) == FailureResponse(ThrownBy(net.post))
  {
  }

  /** In the planned trace the tags come right after the transaction is created, in their fixed order. */
  lemma TagsInOrder(net: Arweave)
    ensures PlannedCalls(net)[5..9] == FileTags(
      if net.formData.Returns? && net.formData.value.Some? && net.formData.value.value.FileEntry?
      then net.formData.value.value.file else UploadedFile("", "", []))
    ensures PlannedCalls(net)[4].CreateTransaction?
  {
  }

  /**
   * Any trace that reaches the post has signed and verified first, and any
   * trace that signs has queried the balance first.
   */
  lemma {:induction false} PostFollowsVerify(net: Arweave, calls: seq<ExtCall>)
    requires calls <= PlannedCalls(net)
    ensures PostTransaction in calls ==>
              |calls| == 13 && calls[10] == Sign && calls[11] == Verify && calls[12] == PostTransaction
    ensures Sign in calls ==> |calls| >= 11 && calls[2].GetBalance? && calls[4].CreateTransaction?
  {
    var p := PlannedCalls(net);
    assert forall k :: 0 <= k < |calls| ==> calls[k] == p[k];
    if PostTransaction in calls {
      var k :| 0 <= k < |calls| && calls[k] == PostTransaction;
      assert k == 12;
    }
    if Sign in calls {
      var k :| 0 <= k < |calls| && calls[k] == Sign;
      assert k == 10;
    }
  }
}
