# Memoria front end, modelled in Dafny

Memoria is a community-archive dApp. It has five parts:

- **Upload route.** The Next.js route `POST /api/media-upload` takes a file from a multipart form and stores it on Arweave.
  - It checks the server wallet and its balance.
  - It then builds, tags, prices, signs, verifies and posts a transaction.
  - It answers with the file's gateway URL, or with an error.
- **Archive list.** The `/archive/list` page shows the factory contract's archives ten at a time.
- **Mock create page.** The `/archives/new` page builds a draft archive record from a form.
- **Create page.** The `/archive/new` page creates an archive on chain. Its illustration is uploaded through the **FileUpload** component.
- **Connect button.** The custom connect button chooses between "Connect Wallet", the wrong-network dropdown, and a link to `/archive/new`.

The project has one module per source file, plus one shared module:

| module | file | source |
|---|---|---|
| `JsText` | `js_text.dfy` | the ECMAScript string built-ins the pages use: `trim`, `split`, `join`, `includes`, `Number.parseInt`, number-to-string |
| `MediaUpload` | `media_upload.dfy` | `app/api/media-upload/route.ts` |
| `ArchiveList` | `archive_list.dfy` | `app/archive/list/page.tsx` |
| `ArchivesNew` | `archives_new.dfy` | `app/archives/new/page.tsx` |
| `ArchiveNew` | `archive_new.dfy` | `app/archive/new/page.tsx` |
| `FileUploadComponent` | `file_upload.dfy` | `components/scaffold-eth/FileUpload.tsx` |
| `ConnectButton` | `connect_button.dfy` | `components/scaffold-eth/RainbowKitCustomConnectButton/index.tsx` |

How state is modelled:

- **React component state** is a class. Each handler is a method that changes only the fields named in its `modifies` clause.
- **Navigation, contract writes and the component's outward actions** are appended to a `seq` field (`effects` or `history`).
- **Outside libraries** (the Arweave client, `fetch`, `writeContractAsync`, the clock) are inputs. Each awaited library call is given as `Returns(value)` or `Throws(error)`.
- **The route handler** returns the ordered list of external calls it made. That list is proved to be a prefix of the 13 calls of a complete upload.

## Model

| member | source | states |
|---|---|---|
| MediaUpload.Post | packages/nextjs/app/api/media-upload/route.ts:10-106 | The handler answers `Answer(wallet, net)`. Its calls are the first `CallCount(wallet, net)` calls of the planned sequence, in order. |
| MediaUpload.CallCount | packages/nextjs/app/api/media-upload/route.ts:18-82 | The handler makes between 1 and 13 library calls. |
| MediaUpload.AnswerWellFormed | packages/nextjs/app/api/media-upload/route.ts:23-105 | Every answer has one of three shapes: 200 with the gateway URL of its transaction id, the 400 "No file uploaded", or a 500 with an error. |
| MediaUpload.MissingFileIsTheOnly400 | packages/nextjs/app/api/media-upload/route.ts:20-32 | The answer is 400 exactly when the form was read and `file` is missing or empty. That answer comes after reading the form and nothing else. An unreadable form, or an empty wallet, also ends after that one call, with the catch block's 500. Any Arweave call implies a file was sent and the wallet is non-empty. |
| MediaUpload.ChecksBeforeTransaction | packages/nextjs/app/api/media-upload/route.ts:34-45 | A zero balance ends the request right after the balance query. Getting past it requires a read, non-zero balance. A text value under `file` fails at `arrayBuffer` as the fourth call. From the fifth call on, the entry is a real file. |
| MediaUpload.PostOutcome | packages/nextjs/app/api/media-upload/route.ts:69-94 | Posting happens only after verification returned true. A false verification ends with "Transaction verification failed" before posting. A post answered 200 or 208 gives the success record with the signed id and the cost in AR. Any other status gives "Transaction failed with status: <status>. <data>". The answer is 200 exactly in the accepted case. |
| MediaUpload.ThrowEndsRequest | packages/nextjs/app/api/media-upload/route.ts:35-105 | Each library call that throws ends the request at that call, with the catch block's 500. Its `error` is the thrown Error's own message, or "Upload failed" for any other thrown value. |
| MediaUpload.Falsy | packages/nextjs/app/api/media-upload/route.ts:23 | `!file` is true only for a missing entry or an empty text value. A File entry is always truthy, even an empty file, so it passes the 400 check. |
| MediaUpload.PlannedCalls | packages/nextjs/app/api/media-upload/route.ts:20-78 | A complete upload makes exactly 13 external calls. |
| MediaUpload.TagsInOrder | packages/nextjs/app/api/media-upload/route.ts:48-59 | The transaction is created before its four tags are added. The tags are Content-Type, File-Name, App-Name "ArweaveUploader" and App-Version "1.0.0", in that order. |
| MediaUpload.PostFollowsVerify | packages/nextjs/app/api/media-upload/route.ts:62-78 | In any prefix of the planned calls, a post is the 13th call and comes right after sign and verify. Signing happens only after the balance was read and the transaction was created. |
| ArchiveList.IndicesAreCards | packages/nextjs/app/archive/list/page.tsx:93-94 | The slots `0, 1, …, n − 1` that `Array.from` builds hold exactly the indices below `n`. |
| ArchiveList.UnreadTotalShowsEmptyState | packages/nextjs/app/archive/list/page.tsx:38 | A total that could not be read counts as zero archives. Once loading stops, the page shows "No Archives Yet", no cards, no "Load More" and no "All archives loaded", whatever `displayCount` is. |
| ArchiveList.NextDisplayCount | packages/nextjs/app/archive/list/page.tsx:40-42 | One "Load More" shows ten more cards or all of them. It never shows more than exist, and it always grows the count while some are hidden. |
| ArchiveList.ArchivesListPage.constructor | packages/nextjs/app/archive/list/page.tsx:30 | The list starts with ten cards allowed. |
| ArchiveList.ArchivesListPage.HandleLoadMore | packages/nextjs/app/archive/list/page.tsx:40-42 | The new count is the old count plus ten, capped at the total. It strictly grows while archives are hidden. |
| ArchiveList.LoadMoreReachesTotal | packages/nextjs/app/archive/list/page.tsx:40-42 | After ceil((total − shown)/10) presses every archive is shown. Before the last of those presses the button is still offered. |
| ArchiveList.Render | packages/nextjs/app/archive/list/page.tsx:93-124 | An archive gets a card exactly when its index is below `displayCount`. Cards appear once each, in index order, and only for archives that exist. "Load More" appears exactly when some archive has no card, and its label plus the cards shown make the total. Without the button, every archive has a card. |
| ArchiveList.FooterIsExclusive | packages/nextjs/app/archive/list/page.tsx:99-124 | With archives present, exactly one of "Load More" and "All archives loaded" shows, and the empty state does not. With none (after loading), only the empty state shows. |
| ArchiveList.LoadMoreGrowsCards | packages/nextjs/app/archive/list/page.tsx:93-110 | Pressing the visible button adds one to ten cards and keeps the cards already shown. |
| ArchiveList.ShouldRetry | packages/nextjs/app/archive/list/page.tsx:185-189 | An error whose message contains "contract" is never retried. Any other error is retried while fewer than three failures have occurred. |
| ArchiveList.RetriesAtMostThree | packages/nextjs/app/archive/list/page.tsx:185-189 | A transient error is retried for exactly the failure counts 0, 1 and 2. |
| ArchiveList.RetryDelay | packages/nextjs/app/archive/list/page.tsx:190 | The delay lies between 1 and 30 seconds. |
| ArchiveList.Pow2 | packages/nextjs/app/archive/list/page.tsx:190 | `2 ** n` is at least 1. |
| ArchiveList.Pow2Monotone | packages/nextjs/app/archive/list/page.tsx:190 | `2 ** n` is monotone in `n`. |
| ArchiveList.RetryDelayCapped | packages/nextjs/app/archive/list/page.tsx:190 | From attempt index 5 on, the delay is the 30-second cap. |
| ArchiveList.RetryDelayIncreasing | packages/nextjs/app/archive/list/page.tsx:190 | The delay strictly increases up to the cap, doubling through index 4. |
| ArchiveList.RetrySchedule | packages/nextjs/app/archive/list/page.tsx:185-190 | The three retries wait 1, 2 and 4 seconds. |
| ArchiveList.StatValues | packages/nextjs/app/archive/list/page.tsx:366-386 | Donors is never negative. Memories is at least −1, and it is negative exactly when the archive's next artifact id is 0. That archive is then shown with "-1" memories. |
| ArchiveList.StatsShownTogether | packages/nextjs/app/archive/list/page.tsx:366-386 | The two statistics are shown together, exactly when the stats were read without error, and dashed together otherwise. |
| ArchiveList.View | packages/nextjs/app/archive/list/page.tsx:295-321 | A card shows the error card on an address error once the address read stopped, otherwise the skeleton while either read loads, and otherwise its details. Details therefore show only once both reads have finished without a critical error. |
| ArchiveList.ClickTarget | packages/nextjs/app/archive/list/page.tsx:280-284 | A click navigates exactly when the card shows its details and has a non-empty address, and then to `/archive/<address>`. |
| ArchiveList.KeyTarget | packages/nextjs/app/archive/list/page.tsx:287-292 | Enter and Space act exactly like a click. Other keys do nothing. |
| ArchiveList.NavigationMatchesView | packages/nextjs/app/archive/list/page.tsx:275-327 | A card showing the error card or the skeleton ignores clicks, Enter and Space. A card showing its details with an address answers all three with the same navigation. |
| ArchivesNew.InitialFormWellFormed | packages/nextjs/app/archives/new/page.tsx:26-34 | The initial form holds the six text fields and `isPublic` true. |
| ArchivesNew.CreateArchivePage.constructor | packages/nextjs/app/archives/new/page.tsx:26-34 | The page starts from the initial form. |
| ArchivesNew.CreateArchivePage.HandleInputChange | packages/nextjs/app/archives/new/page.tsx:38-44 | Only the named field changes. It stores the checked flag for a checkbox and the text value otherwise. A change from one of the page's own inputs keeps the form well formed. |
| ArchivesNew.CreateArchivePage.SelectPublic | packages/nextjs/app/archives/new/page.tsx:217-222 | Sets `isPublic` to true and changes nothing else. |
| ArchivesNew.CreateArchivePage.SelectPrivate | packages/nextjs/app/archives/new/page.tsx:231-236 | Sets `isPublic` to false and changes nothing else. |
| ArchivesNew.FundingGoalDefault | packages/nextjs/app/archives/new/page.tsx:55 | Text that does not start (after whitespace) with a digit or a sign gives goal 0. |
| ArchivesNew.FundingGoalOfDecimal | packages/nextjs/app/archives/new/page.tsx:55 | The decimal spelling of n gives goal n. |
| ArchivesNew.Map | packages/nextjs/app/archives/new/page.tsx:59 | `.map` keeps the length of the list. |
| ArchivesNew.MapAt | packages/nextjs/app/archives/new/page.tsx:59 | Each mapped element is `f` of the element at the same index. |
| ArchivesNew.MapAppend | packages/nextjs/app/archives/new/page.tsx:59 | Mapping distributes over concatenation. |
| ArchivesNew.MapFixed | packages/nextjs/app/archives/new/page.tsx:59 | Mapping a function that fixes every element changes nothing. |
| ArchivesNew.MapToEmpties | packages/nextjs/app/archives/new/page.tsx:59-60 | When the map empties every element, the filter leaves nothing. |
| ArchivesNew.TrimAllAt | packages/nextjs/app/archives/new/page.tsx:59 | Each trimmed piece is the trim of the piece at the same index. |
| ArchivesNew.TrimAllOfTrimmed | packages/nextjs/app/archives/new/page.tsx:59 | Pieces already trimmed are unchanged. |
| ArchivesNew.TrimAllOfBlanks | packages/nextjs/app/archives/new/page.tsx:59-60 | Whitespace-only pieces all disappear. |
| ArchivesNew.NonEmpty | packages/nextjs/app/archives/new/page.tsx:60 | The filter keeps only non-empty pieces, drawn from the input. |
| ArchivesNew.TrimmedPiecesClean | packages/nextjs/app/archives/new/page.tsx:57-59 | After trimming, no piece has whitespace at an end or a comma inside. |
| ArchivesNew.ParseTags | packages/nextjs/app/archives/new/page.tsx:57-60 | The tags are the comma-split pieces, trimmed, with the empty ones dropped. Every tag is non-empty, trimmed and comma-free, and there is at most one tag per comma plus one. Joining text at a comma joins its tags (ParseTagsAppend). Clean tags joined with commas parse back to themselves (ParseTagsOfJoin). Commas and whitespace alone give no tags (BlankTags). |
| ArchivesNew.NonEmptyAppend | packages/nextjs/app/archives/new/page.tsx:60 | The filter distributes over concatenation, which preserves order. |
| ArchivesNew.NonEmptyOfEmpties | packages/nextjs/app/archives/new/page.tsx:60 | Empty pieces all disappear. |
| ArchivesNew.NonEmptyOfNonEmpties | packages/nextjs/app/archives/new/page.tsx:60 | Non-empty pieces are all kept. |
| ArchivesNew.TrimKeepsAbsent | packages/nextjs/app/archives/new/page.tsx:59 | Trimming introduces no character. |
| ArchivesNew.ParseTagsAppend | packages/nextjs/app/archives/new/page.tsx:57-60 | The tags of `a,b` are the tags of `a` followed by the tags of `b`. |
| ArchivesNew.SplitPiecesFromSource | packages/nextjs/app/archives/new/page.tsx:58 | Every character of every piece comes from the input. |
| ArchivesNew.BlankTags | packages/nextjs/app/archives/new/page.tsx:57-60 | Input made only of commas and whitespace gives no tags. |
| ArchivesNew.ParseTagsOfJoin | packages/nextjs/app/archives/new/page.tsx:57-60 | Joining clean tags with commas and parsing them back gives the same tags. |
| ArchivesNew.ParseTagsIdempotent | packages/nextjs/app/archives/new/page.tsx:57-60 | Re-parsing the comma-joined parsed tags changes nothing. |
| ArchivesNew.BuildArchive | packages/nextjs/app/archives/new/page.tsx:49-65 | The id is `arch_` followed by the decimal digits of `Date.now()`, and those digits parse back to that time. Title, description, location and category are copied from the form. The funding goal is the form's goal read by `parseInt`, with 0 for NaN. The tags are the form's tags through split, trim and filter, and all are clean. Nothing has been raised. The steward is "Current User", and the steward avatar and cover image are the two fixed placeholder images. `created` contains no `T`: it is the whole timestamp, or the timestamp's text before its first `T`. |
| ArchivesNew.JoinHead | packages/nextjs/app/archives/new/page.tsx:64 | A join of one part is that part. A join of more parts starts with the first part followed by the separator. |
| ArchivesNew.ArchivePath | packages/nextjs/app/archives/new/page.tsx:69 | The target lies under `/archive/`, and the rest of it is the archive's id. |
| ArchivesNew.ArchivePathShape | packages/nextjs/app/archives/new/page.tsx:69 | The target is under `/archive/arch_`. |
| ArchivesNew.CreateArchivePage.HandleSubmit | packages/nextjs/app/archives/new/page.tsx:46-70 | Submitting builds the draft from the current form and navigates to `/archive/<id>`. |
| ArchiveNew.SubmitDisabled | packages/nextjs/app/archive/new/page.tsx:154 | While Create is enabled, every argument of `createArchive` is non-empty, and the illustration slot shows the uploaded URL rather than the uploader. |
| ArchiveNew.SubmitEnabledWhenFilled | packages/nextjs/app/archive/new/page.tsx:20-24 | Create starts disabled. It is enabled exactly when title, description and illustration are all non-empty. |
| ArchiveNew.EmptyUploadKeepsDisabled | packages/nextjs/app/archive/new/page.tsx:127-154 | An upload that reports an empty URL leaves Create disabled and the uploader showing. |
| ArchiveNew.UploadUpdateAsWritten | packages/nextjs/app/archive/new/page.tsx:131-136 | The callback as written sets the illustration and takes every other field from the form captured when the upload started. |
| ArchiveNew.UploadUpdate | packages/nextjs/app/archive/new/page.tsx:131-136 | After an upload the illustration is the URL and every other field is unchanged. |
| ArchiveNew.StaleUploadDropsTitle | packages/nextjs/app/archive/new/page.tsx:131-136 | A title typed during an upload is erased by the callback as written, and kept by `UploadUpdate`. |
| ArchiveNew.UploadCompletesForm | packages/nextjs/app/archive/new/page.tsx:127-154 | With title and description filled, a successful upload enables Create and replaces the uploader by the URL. |
| ArchiveNew.SubmitSendsForm | packages/nextjs/app/archive/new/page.tsx:34-53 | After typing a title and a description and uploading a file, Create is enabled. The write then carries that title, that description and the uploaded URL, in that order. |
| ArchiveNew.TypingKeepsIllustration | packages/nextjs/app/archive/new/page.tsx:26-32 | No sequence of edits to the title and description changes the illustration. From a form without one, typing alone never enables Create. |
| ArchiveNew.NavigationFollowsWrite | packages/nextjs/app/archive/new/page.tsx:34-53 | A submit makes exactly one write, and it comes first. Navigation happens at most once, only after that write, only when the write resolved, and always to `/archive/list`. |
| ArchiveNew.CreateArchivePage.constructor | packages/nextjs/app/archive/new/page.tsx:20-24 | The page starts with three empty fields and no effects. |
| ArchiveNew.CreateArchivePage.HandleInputChange | packages/nextjs/app/archive/new/page.tsx:26-32 | Only the named field changes. Typing into the title or the description of a form without an illustration keeps Create disabled. |
| ArchiveNew.CreateArchivePage.OnUploadSuccess | packages/nextjs/app/archive/new/page.tsx:131-136 | The illustration becomes the uploaded URL. The other fields are as they are now. |
| ArchiveNew.CreateArchivePage.HandleSubmit | packages/nextjs/app/archive/new/page.tsx:41-53 | Appends exactly the submit effects for the current form: the `createArchive` write with title, description and illustration, then the navigation if the write resolved. |
| ArchiveNew.CreateArchivePage.HandleBack | packages/nextjs/app/archive/new/page.tsx:55-57 | Navigates to `/archive/list` and writes nothing. |
| FileUploadComponent.UploadDisabled | packages/nextjs/components/scaffold-eth/FileUpload.tsx:35 | Upload is disabled while no file is chosen or an upload is running. While it is enabled, there is a file to post and no upload running. |
| FileUploadComponent.ChosenFileIsPosted | packages/nextjs/components/scaffold-eth/FileUpload.tsx:12-35 | After files are chosen, Upload is enabled. Pressing it posts the first chosen file, exactly once, under the field `file`. |
| FileUploadComponent.NoFileKeepsUploadDisabled | packages/nextjs/components/scaffold-eth/FileUpload.tsx:12-35 | Clearing the file input disables Upload. A handler run without a file does nothing. |
| FileUploadComponent.UploadEvents | packages/nextjs/components/scaffold-eth/FileUpload.tsx:12-31 | Without a file nothing happens. With one, `uploading` goes true, then the file is POSTed as field `file` to `/api/media-upload`, and `uploading` ends false. |
| FileUploadComponent.OnePostPerUpload | packages/nextjs/components/scaffold-eth/FileUpload.tsx:12-22 | Each upload posts exactly the chosen file, once. |
| FileUploadComponent.CallbackIffOk | packages/nextjs/components/scaffold-eth/FileUpload.tsx:24-30 | `onSuccess` runs exactly on a 2xx response. It receives the body, after the request and before `uploading` is cleared. |
| FileUploadComponent.CallbackGetsGatewayUrl | packages/nextjs/components/scaffold-eth/FileUpload.tsx:26-27 | Against the upload route's answers, `onSuccess` runs exactly on a successful upload. The URL it receives is the gateway URL of the transaction. |
| FileUploadComponent.UploadThroughHandler | packages/nextjs/components/scaffold-eth/FileUpload.tsx:19-28 | Uploading through the media-upload handler calls `onSuccess` exactly when the handler posted and the gateway accepted the post. The URL it is given is the gateway URL of the signed transaction. |
| FileUploadComponent.FileUpload.constructor | packages/nextjs/components/scaffold-eth/FileUpload.tsx:9-10 | The component starts with no file, not uploading, and the Upload button disabled. |
| FileUploadComponent.FileUpload.OnFileChange | packages/nextjs/components/scaffold-eth/FileUpload.tsx:34 | The selected file is the first chosen one. Choosing nothing leaves Upload disabled. |
| FileUploadComponent.FileUpload.HandleUpload | packages/nextjs/components/scaffold-eth/FileUpload.tsx:12-31 | Records exactly the upload events. Afterwards the component is not uploading. With no file, nothing changes. |
| ConnectButton.CasesPartition | packages/nextjs/components/scaffold-eth/RainbowKitCustomConnectButton/index.tsx:19-47 | Every input is in exactly one situation: no wallet to act for, a connected wallet on the wrong network, or a connected wallet on the target network. |
| ConnectButton.ChooseMatchesCase | packages/nextjs/components/scaffold-eth/RainbowKitCustomConnectButton/index.tsx:18-48 | The button shows the choice of that situation: "Connect Wallet", the wrong-network dropdown, or the link to `/archive/new`. |
| ConnectButton.UnmountedOffersConnect | packages/nextjs/components/scaffold-eth/RainbowKitCustomConnectButton/index.tsx:19-24 | Before mounting, only "Connect Wallet" shows. |
| ConnectButton.LinkOnlyOnTarget | packages/nextjs/components/scaffold-eth/RainbowKitCustomConnectButton/index.tsx:36-47 | On a supported chain, the create link shows exactly on the target network. |
| JsText.Trim | packages/nextjs/app/archives/new/page.tsx:59 | The result has no whitespace at either end. It is what remains after removing a whitespace-only prefix and suffix. |
| JsText.TrimStart | packages/nextjs/app/archives/new/page.tsx:55 | Leading whitespace is removed and the rest is kept. |
| JsText.TrimEnd | packages/nextjs/app/archives/new/page.tsx:59 | Trailing whitespace is removed and the rest is kept. |
| JsText.TrimOfTrimmed | packages/nextjs/app/archives/new/page.tsx:59 | Trimming is idempotent. |
| JsText.TrimOfWhitespace | packages/nextjs/app/archives/new/page.tsx:59-60 | Whitespace-only text trims to "". |
| JsText.TrimStartOfWhitespace | packages/nextjs/app/archives/new/page.tsx:55 | Whitespace-only text loses everything at the start. |
| JsText.Split | packages/nextjs/app/archives/new/page.tsx:58 | There is one piece per separator plus one, and no piece contains the separator. |
| JsText.JoinSplit | packages/nextjs/app/archives/new/page.tsx:58 | Joining the pieces with the separator gives back the input. |
| JsText.SplitJoin | packages/nextjs/app/archives/new/page.tsx:58 | Splitting a join of separator-free pieces gives back the pieces. |
| JsText.SplitFree | packages/nextjs/app/archives/new/page.tsx:58 | Separator-free text is a single piece. |
| JsText.SplitCons | packages/nextjs/app/archives/new/page.tsx:58 | A leading non-separator extends the first piece. |
| JsText.SplitAppend | packages/nextjs/app/archives/new/page.tsx:58 | Splitting `a + sep + b` gives the pieces of `a` followed by the pieces of `b`. |
| JsText.SplitAppendSep | packages/nextjs/app/archives/new/page.tsx:58 | A leading separator opens an empty first piece, in `SplitAppend`'s step. |
| JsText.SplitAppendChar | packages/nextjs/app/archives/new/page.tsx:58 | A leading ordinary character extends the first piece, in `SplitAppend`'s step. |
| JsText.ExtendFirst | packages/nextjs/app/archives/new/page.tsx:58 | Extending the first piece commutes with appending pieces. |
| JsText.IncludesAt | packages/nextjs/app/archive/list/page.tsx:187 | `includes` holds exactly when the substring occurs at some index. |
| JsText.DigitValue | packages/nextjs/app/archives/new/page.tsx:55 | '0' to '9' are worth 0 to 9, and letters of either case are worth 10 to 35. Exactly the decimal digits are below 10, exactly the hex digits below 16, and exactly digits and letters below 36. Any other character is worth 36, which no radix admits. |
| JsText.DigitChar | packages/nextjs/app/api/media-upload/route.ts:93 | Each value below ten has its decimal digit. |
| JsText.NatToString | packages/nextjs/app/api/media-upload/route.ts:93 | A number's decimal text is non-empty, all digits, has no leading zero, and denotes the number. |
| JsText.LeadingDigits | packages/nextjs/app/archives/new/page.tsx:55 | The longest prefix of digits in the radix. |
| JsText.ParseInt | packages/nextjs/app/archives/new/page.tsx:55 | `parseInt` gives a number only when something is left after the leading whitespace. A negative number needs a leading `-`. The round trips are stated by ParseIntOfDecimal and ParseIntOfDigits. |
| JsText.ParseIntOfDecimal | packages/nextjs/app/archives/new/page.tsx:55 | `parseInt` of a number's decimal text is that number. |
| JsText.ParseIntOfDigits | packages/nextjs/app/archives/new/page.tsx:55 | `parseInt` of a digit string is its decimal value. |
| JsText.TrimStartOfDigits | packages/nextjs/app/archives/new/page.tsx:55 | Digit text has no leading whitespace to strip. |
| JsText.MagnitudeOfDigits | packages/nextjs/app/archives/new/page.tsx:55 | The magnitude of a digit string is its decimal value. |
| JsText.ParseIntUnsigned | packages/nextjs/app/archives/new/page.tsx:55 | Without a sign, `parseInt` is the magnitude. |
| JsText.LeadingDigitsOfDigits | packages/nextjs/app/archives/new/page.tsx:55 | All-digit text is its own leading digit run. |
| JsText.ParseIntOfNonNumeric | packages/nextjs/app/archives/new/page.tsx:55 | Text not starting (after whitespace) with a digit or a sign parses to NaN. |

## Left out

- Logging (`console.log`, `console.error`) is not modelled. It has no effect on any answer.
- The Arweave client, `fetch`, `writeContractAsync` and the router are outside this model. Their results are inputs: each awaited call returns a value or throws. The transaction id, balance string, price and `winstonToAr` conversion of the cost are given as they come back.
- Parsing `ARWEAVE_WALLET_KEY` at module load is not modelled. The parsed key object is a map from key names to values. A wallet that parses to `null` or to a non-object is not modelled; only an empty object is.
- The multipart form is modelled as the one `file` entry, which is either a file or a text value. A non-empty text value fails at `file.arrayBuffer`, with the message a runtime gives.
- MediaUpload.Post: reading a real file's bytes (`await file.arrayBuffer()`) always succeeds here. A read that fails, for example on an aborted request body, is not modelled. It would end in the catch block's 500 like any other throw.
- Signing is an input. `transaction.id` is the id the signing step gives; the cryptography is not modelled.
- MediaUpload.Post: `${response.data || ""}` is modelled for string data only. Object data would be rendered as `[object Object]`, which is not modelled.
- Data fetching in the list page is not modelled: the TanStack query cache, refetching, the actual timing of retries, and the per-read `retry: 2` settings. Only the details query's `retry` and `retryDelay` functions are modelled, together with the states the card renders from.
- The Balance component inside each card and the styling of every page are not modelled.
- Numbers are unbounded integers. The `Number(bigint)` conversions of the contract's `uint256` values do not lose precision here, as they would above 2^53. `Number.parseInt` of the funding goal (archives/new/page.tsx:55) is read exactly as well: a JavaScript double would lose precision for digit strings above 2^53 and would give `Infinity` for very long ones.
- `Date.now()` and `new Date().toISOString()` are parameters of `ArchivesNew.CreateArchivePage.HandleSubmit`.
- ArchivesNew.CreateArchivePage.HandleSubmit: it requires a well-formed form, that is, text fields holding text. A checkbox change aimed at a text field cannot come from the page's own inputs and is not covered.
- The whitespace that `trim` and `parseInt` skip is an enumerated set of code points: the ECMAScript WhiteSpace and LineTerminator characters of current Unicode. It does not follow later Unicode versions.
- `handleBack` on `/archives/new` calls `router.back()`. Browser history is not modelled.
- `e.preventDefault()` and the browser's `required` checks are not modelled.
- ArchiveNew.CreateArchivePage.HandleSubmit: the write hook can return without throwing (for example when no wallet is connected); that case is treated as resolving. Notifications shown by the hook are not modelled.
- FileUploadComponent.FileUpload.HandleUpload: `fetch` or `response.json()` throwing (a network error, a non-JSON body) is not modelled. The component would then leave `uploading` true. Two uploads running at once are not modelled either.
- The wrong-network dropdown's contents and `openConnectModal` are not part of this model.

## Findings

| source | as written | input that shows it | evidently intended | confidence | as-written member | corrected member |
|---|---|---|---|---|---|---|
| packages/nextjs/app/archive/new/page.tsx:131-136 | The upload's `onSuccess` calls `setFormData({...formData, illustration})` on the `formData` captured by the render in which the upload started. | Start an upload with an empty form, then type the title "Harbour songs" before it completes. On success the title is reset to "". | Update the current form, `setFormData(prev => ({...prev, illustration}))`, as `handleInputChange` does. | not executed | ArchiveNew.UploadUpdateAsWritten, ArchiveNew.StaleUploadDropsTitle | ArchiveNew.UploadUpdate, ArchiveNew.CreateArchivePage.OnUploadSuccess |
