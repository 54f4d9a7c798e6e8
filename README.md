# Inbound SMS webhook — a Dafny model

This project models the core of an inbound-SMS webhook, `handler.py`. The webhook is a
serverless function behind a public URL. The SMS provider (Twilio) posts each incoming text
message to it as a form. For every call the handler:

1. checks that its configuration is complete: bucket name, auth token, allow-list and webhook URL;
2. decodes the form and checks the provider's HMAC signature over the URL and the sorted
   form fields;
3. checks that the sender (`From`) is present and on the allow-list;
4. downloads every attached media item into the object store under `media/<sid>_<i>.<ext>`;
5. appends one tab-separated line to the sender's log `logs/<sanitized number>.log`,
   rewriting the whole object;
6. runs the processors registered for the `/action/action …` commands at the start of the
   body;
7. sends a notification e-mail;
8. answers with an empty TwiML document.

The modules follow the program's structure:

- `Text`: character classes, strip, split and join, lines, integer text.
- `Ordering`: Python's `sorted` on strings.
- `Payload`: the decoded form and its lookups.
- `Signature`: signature validation.
- `Commands`: `parse_actions`.
- `Identity`: `sanitize_phone_number` and the log key.
- `MessageLog`: log lines, the location field and appending.
- `ObjectStore`: the bucket, as a class whose map of objects the reads and puts use.
- `Media`: `download_and_save_media` and the media loop of the handler.
- `Dispatch`: the processor registry, as a class, and `process_actions`.
- `Settings`: the environment values parsed at load time.
- `Handler`: the entry point.

`Handler.Expected` is the specification of one call. `Handler.Handle` updates the store in
place and is proved to produce exactly that outcome and store. The lemmas beside
`Expected` state what a call promises: which calls are rejected and how, that an accepted
call appends exactly one line to the sender's log, which actions run, and when history is
lost.

## Model

| member | source | states |
|---|---|---|
| Settings.ParseAllowList | handler.py:39 | every allowed number is non-empty, with no white space at either end |
| Settings.AllowListPieces | handler.py:39 | the allow-list read from comma-free pieces joined by commas is those pieces, each stripped, in order, with the empty ones dropped |
| Settings.KeepStrippedAppend | handler.py:39 | the numbers kept from two runs of pieces are those kept from the first, then those kept from the second |
| Settings.KeepStrippedOne | handler.py:39 | one piece contributes its stripped text, or nothing when that is empty |
| Settings.Load | handler.py:35-43 | the configuration holds the attach flag and the allow-list parsed from their raw environment values (its partner is `Handler.LoadedConfigComplete`) |
| Settings.KeepStrippedEmpty | handler.py:39 | no number is kept exactly when every piece strips to nothing |
| Settings.AllowListEmpty | handler.py:39 | the allow-list is empty exactly when every comma piece of the raw value is blank |
| Settings.AllowListRoundTrip | handler.py:39 | stripped numbers without commas, written comma-separated, are read back as the same list in the same order |
| Settings.KeepStrippedUnchanged | handler.py:39 | pieces that are already stripped are all kept, unchanged |
| Settings.Lower | handler.py:35 | each character is lower-cased on its own, only the ASCII capitals change, and the length is kept |
| Settings.AttachFlagAnyCase | handler.py:35 | the flag is set exactly when the value has four characters, each the letter of "true" at that place in either case |
| Settings.AttachFlagExamples | handler.py:35 | the attach flag is set for "true" in any case ("TRUE", "True") and not for "yes" or an unset variable |
| Text.TrimStart | handler.py:112 | the result is a suffix, everything removed is white space, and it does not start with white space |
| Text.TrimEnd | handler.py:112 | the result is a prefix, everything removed is white space, and it does not end with white space |
| Text.StripUnchanged | handler.py:39 | a text with no white space at either end is unchanged by strip |
| Text.SplitJoin | handler.py:39 | splitting at a separator undoes joining with it, when no part contains it |
| Text.LinesAppend | handler.py:530-532 | appending a line and a newline to a newline-terminated text adds exactly that line to its lines |
| Text.LinesOfLine | handler.py:527 | one line with its newline is a single line |
| Text.NatToStringValue | handler.py:527 | the decimal digits written for a count have that count as their value |
| Text.NatToStringInjective | handler.py:527 | different counts are written differently |
| Text.ParseDigits | handler.py:513 | `int()` reads a run of digits as its decimal value |
| Text.ParseNegative | handler.py:513 | `int()` reads a minus sign and digits as the negated value |
| Text.ParseIntRoundTrip | handler.py:513 | `int()` reads back every integer as Python writes it, sign included |
| Ordering.SortCorrect | handler.py:71 | the sorted keys are in order and are a permutation of the keys |
| Ordering.SortedUnique | handler.py:71 | two sorted permutations of the same keys are equal, so the order is fully determined |
| Ordering.LessTotal | handler.py:71 | the code-point order on strings is total |
| Ordering.LessTransitive | handler.py:71 | the code-point order on strings is transitive |
| Payload.Lookup | handler.py:72 | a field is found exactly when its key is among the form's keys, with a value the form holds for it |
| Payload.LookupField | handler.py:72 | in a form with distinct keys, a lookup returns the value stored with that key |
| Payload.KeysCount | handler.py:71 | each key occurs once among the keys of a form |
| Payload.SameFieldsSameKeys | handler.py:71 | two forms that hold the same fields in another order have the same multiset of keys |
| Signature.SignedPairsStep | handler.py:71-72 | each step of the loop appends that key and its value to the signed text |
| Signature.SortedKeysOfPayload | handler.py:71 | the keys are visited in sorted order, and each is a key of the form |
| Signature.SignatureCheck | handler.py:62-80 | a missing signature, auth token or URL is invalid; the verdict is true exactly when the signature is ASCII and equals the MAC, under the auth token, of the URL followed by every key and its value in sorted key order; the check raises exactly when, with all three present, the signature or the MAC holds a non-ASCII character |
| Signature.AsciiSignatureDecides | handler.py:80 | with an ASCII signature and an ASCII MAC the comparison does not raise and answers whether the signature is valid |
| Signature.ValidateSignature | handler.py:62-80 | returns false for a missing signature, auth token or URL, and otherwise exactly the verdict (or the raise) of `SignatureCheck` |
| Signature.BuildStringToSign | handler.py:69-72 | the loop builds the URL followed by every key and its value, keys ascending |
| Signature.SignPairs | handler.py:71-72 | the loop body appends name + value for each listed name in turn, giving the signed pairs of those names |
| Signature.SignedPairsSameFields | handler.py:71-72 | the signed pairs depend only on the set of fields, not on their order in the form |
| Signature.SignatureIgnoresFieldOrder | handler.py:70-80 | the string to sign, validity and the verdict of the check do not depend on the order in which the fields arrive |
| Commands.ParseActions | handler.py:91-115 | the raw body is returned as it is; without actions the text is the whole body; every action is a non-empty word with no slash |
| Commands.CommandsFound | handler.py:105-112 | when actions are found, the body starts with `/a1/a2…`, which is followed by the end or white space, and the text is the stripped rest |
| Commands.CommandsParsed | handler.py:105-112 | conversely, a body made of a group of word tokens, then nothing or white space and any text, yields exactly those tokens (in order, repeats kept) and that text stripped |
| Commands.ParseActionsFound | handler.py:105-112 | a scan that finds tokens ending at the end of the body or at white space gives those tokens and the stripped rest |
| Commands.TokensAreWords | handler.py:105 | each token the scanner reads is a non-empty run of word characters |
| Commands.TokensSpellGroups | handler.py:105 | the tokens read, each with its slash, spell the matched prefix of the body |
| Commands.ScanRendered | handler.py:105 | the scanner reads back exactly the tokens of a group that the body starts with |
| Commands.WordEndSpec | handler.py:105 | the word scanner stops at the first non-word character |
| Commands.NoLeadingSlash | handler.py:99-115 | a body that is empty or does not start with '/' has no actions, and its text is the whole body |
| Commands.ExampleTwoActions | handler.py:105-112 | "/a/b hello world" gives the actions a and b and the text "hello world" |
| Commands.ExampleActionOnly | handler.py:105-112 | "/a" gives the action a and an empty text |
| Commands.ExampleRepeatedAction | handler.py:105-112 | "/q/q two\nlines" keeps the repeated action, and the text runs across the newline |
| Commands.ExampleBrokenToken | handler.py:113-115 | "/a-b x" does not match, so there are no actions and the text is the whole body |
| Commands.ExampleTrailingSlash | handler.py:113-115 | "/a/" does not match, so there are no actions |
| Identity.Sanitize | handler.py:83-88 | the result is no longer than the number and holds only letters and digits |
| Identity.SanitizeCounts | handler.py:83-88 | every letter or digit is kept as often as it occurs, and every other character is dropped |
| Identity.SanitizeSubsequence | handler.py:83-88 | the kept characters stay in their original order |
| Identity.SanitizeAppend | handler.py:83-88 | sanitizing distributes over concatenation |
| Identity.SanitizeKeepsClean | handler.py:83-88 | a number of letters and digits only is unchanged |
| Identity.SanitizeIdempotent | handler.py:83-88 | sanitizing twice is the same as sanitizing once |
| Identity.LogKey | handler.py:490-491 | the key is "logs/", the sanitized number, then ".log" |
| Identity.LogKeyShared | handler.py:490-491 | two senders share a log exactly when their numbers sanitize alike |
| Identity.PunctuationSharesLog | handler.py:490-491 | inserting punctuation into a number does not change its log |
| Identity.SanitizeDropsAll | handler.py:83-88 | a text with no letter or digit sanitizes to nothing |
| Identity.CleanLogKey | handler.py:490-491 | a number of letters and digits appears verbatim in its key |
| Identity.ExampleSharedLog | handler.py:490-491 | "+1-555" and "1555" write to the same log |
| MessageLog.Fields | handler.py:527 | an entry has eight fields: the timestamp first and the message text last |
| MessageLog.Render | handler.py:527 | the appended text ends with a newline and is at least eight characters long (seven tabs and the newline) |
| MessageLog.EntryRoundTrip | handler.py:527 | an entry with no tab or newline in its fields is exactly one line, which splits at tabs back into the eight fields |
| MessageLog.ActionsFieldRoundTrip | handler.py:508-527 | the fifth field of such a line splits at commas back into the comma-free actions joined there |
| MessageLog.NonEmpty | handler.py:504 | `filter(None, …)` keeps only non-empty values, all of them from the input |
| MessageLog.NonEmptyKeeps | handler.py:504 | every non-empty value is kept |
| MessageLog.NonEmptyAppend | handler.py:504 | filtering two runs of values keeps those of the first, then those of the second, so the order is kept |
| MessageLog.LocationValues | handler.py:504 | the values kept are the non-empty ones of city, state and country, in that order |
| MessageLog.LocationParts | handler.py:504 | the location is empty exactly when city, state and country all are, and otherwise it splits at commas back into the known values |
| MessageLog.Appended | handler.py:531 | the new log extends the text that was read |
| MessageLog.AppendAddsOneLine | handler.py:530-532 | appending keeps every earlier line and adds the entry's line as the last one |
| MessageLog.LogOf | handler.py:530-532 | a log built from messages is newline-terminated |
| MessageLog.LinesOfAt | handler.py:530-532 | the k-th line written belongs to the k-th message |
| MessageLog.LogOfLines | handler.py:530-532 | a log written one message at a time holds one line per message, in arrival order |
| MessageLog.LogLinesSplit | handler.py:527-532 | each line of such a log splits at tabs into the eight fields of its own message |
| ObjectStore.ReadResult | handler.py:118-129 | a read returns the stored text, or "" when the key is missing or the read fails |
| ObjectStore.AfterPut | handler.py:132-141 | a successful put stores the text under the key and changes no other key; a failed put changes nothing |
| ObjectStore.ReadAfterPut | handler.py:118-141 | a read after a successful put returns what was put |
| ObjectStore.Store.ReadLog | handler.py:118-129 | the read never raises and returns `ReadResult` of the current objects |
| ObjectStore.Store.Put | handler.py:132-141 | reports whether the put succeeded, and the new objects are `AfterPut` of the old ones |
| Media.SlashEnd | handler.py:405 | the scan back from the end stops just after the last '/', or at 0 when there is none |
| Media.AfterLastSlash | handler.py:405 | the result is the suffix after the last '/', or the whole text when it has none |
| Media.AfterLastSlashOf | handler.py:405 | for "major/sub" with no '/' in sub, the result is sub |
| Media.Extension | handler.py:396-405 | a known content type maps to its table entry; any other gives the part after its last '/' |
| Media.ExtensionKnown | handler.py:396-405 | image/jpeg gives jpg and video/quicktime gives mov |
| Media.ExtensionUnknown | handler.py:405 | an unlisted type "major/sub" gives sub |
| Media.MediaKey | handler.py:408 | every media key starts with "media/" |
| Media.MediaKeyInjective | handler.py:408 | within one message, different attachment indices or extensions give different keys |
| Media.MediaKeyIsNotLogKey | handler.py:408 | a media key is never a log key, so attachments cannot overwrite a log |
| Media.Saved | handler.py:374-421 | an attachment is saved exactly when both credentials are set, the download succeeds and the put succeeds, under its media key with the downloaded data |
| Media.DownloadAndSave | handler.py:374-421 | returns the key exactly when the attachment is saved, and the store then holds it under that key; otherwise the store is unchanged |
| Media.SavedAt | handler.py:514-521 | an attachment is attempted exactly when its `MediaUrl<i>` field is present and non-empty, and then its outcome is that of `Saved` with `MediaContentType<i>`, or "application/octet-stream" when that field is absent |
| Media.Attempts | handler.py:514-521 | one outcome per announced attachment, the i-th being the i-th attachment's |
| Media.KeysOfSaved | handler.py:514-523 | one key per saved attachment, each being that attachment's key |
| Media.SavedIndicesAscend | handler.py:514-523 | the keys are listed in attachment order, and an attachment is listed exactly when it was saved |
| Media.NothingSavedNothingWritten | handler.py:514-523 | when no attachment is saved, no key is listed and no object is written |
| Media.NoCredentialsNoAttempt | handler.py:379-381 | without an account SID or auth token, no attachment is saved |
| Media.ObjectsAfterElsewhere | handler.py:514-521 | saving attachments changes only the keys of the attachments saved |
| Media.AttemptsAreMedia | handler.py:408 | everything the media loop writes is under a media key of this message and that index |
| Media.MediaKeepsLog | handler.py:514-532 | saving the attachments leaves the sender's log untouched |
| Media.CollectMedia | handler.py:513-523 | the loop lists exactly the keys of the saved attachments, in order, and the store afterwards holds exactly those attachments in addition to what it held |
| Dispatch.Outcome | handler.py:241-247 | a record names its action and succeeds exactly when the processor does, carrying its result or its error |
| Dispatch.Registered | handler.py:238-240 | the actions that have a processor, in order |
| Dispatch.RunStep | handler.py:238-249 | one more action appends that action's record when it is registered, and nothing otherwise |
| Dispatch.RunAppend | handler.py:238-249 | a failing processor does not stop the rest: the records of two runs in a row are those of the two lists, concatenated |
| Dispatch.RunRecords | handler.py:232-250 | there is exactly one record per registered action, in order, each being that processor's outcome |
| Dispatch.UnregisteredSkipped | handler.py:248-249 | an action without a processor contributes nothing, wherever it stands |
| Dispatch.Registry.constructor | handler.py:206 | the registry starts empty |
| Dispatch.Registry.Register | handler.py:209-214 | registering maps the name to the processor, replacing any earlier one, and changes nothing else |
| Dispatch.Registry.ProcessActions | handler.py:232-250 | the loop returns exactly `Run` of the registered processors over the actions |
| Handler.Rejection | handler.py:431-487 | the checks in the handler's order: an incomplete configuration answers 500; a form that does not decode, null headers or a comparison that raises answer 500 (the `except` at handler.py:565-570); an invalid signature 403; a missing `From` 400; a sender not on the allow-list 403; otherwise the call gets through |
| Handler.AdmittedIff | handler.py:431-487 | a call gets through exactly when the configuration is complete, the form decodes, the headers are not null, the signature is ASCII and valid, and the sender is present and allowed |
| Handler.LoadedConfigComplete | handler.py:35-43 | a loaded configuration is complete exactly when bucket, auth token and webhook URL are set and some comma piece of the allow-list is not blank |
| Handler.BlankAllowListRejects | handler.py:445-450 | an allow-list value of only blanks and commas parses to an empty list (handler.py:39), so every call answers 500 |
| Handler.Notification | handler.py:550-552 | an e-mail is sent exactly when an address is configured; its body is the new log line, and the log is attached exactly when attaching is switched on, the attachment being that log |
| Handler.RejectedCallsWriteNothing | handler.py:431-487 | a rejected call stores nothing, runs nothing and sends nothing |
| Handler.StatusCodes | handler.py:424-570 | every call answers 200, 400, 403 or 500, and 200 (with the empty TwiML reply) exactly when it is admitted, its attachment count is an integer and the log write succeeds |
| Handler.AcceptedAppendsEntry | handler.py:527-532 | after an accepted call the sender's log is the text the read returned, followed by the new entry |
| Handler.AcceptedKeepsHistory | handler.py:527-532 | when the read succeeds, the log keeps every earlier line and gains the entry's line as its last |
| Handler.ReadFaultLosesHistory | handler.py:530-532 | when the read fails, the log is overwritten with the new entry alone |
| Handler.AcceptedSeesStoredLog | handler.py:530-552 | after an accepted call the processors are given exactly the log now stored, and the e-mail attaches that same stored log |
| Handler.EntryActionsRoundTrip | handler.py:507-527 | the log line of a message with actions splits at tabs into eight fields, the fifth of which splits at commas back into the parsed actions |
| Handler.WordHasNoComma | handler.py:105 | a command token holds no comma, so joining actions with commas can be undone |
| Handler.AcceptedRunsActions | handler.py:535-547 | an accepted call produces one record per registered action of the body, in order |
| Handler.Handle | handler.py:424-570 | the response, the action records, the e-mail and the objects afterwards are exactly those of `Expected` for the call |
| Handler.DefaultRegistry | handler.py:256 | the registry holds the `question` processor and nothing else |

## Left out

- `message_logs.py` is not part of this model.
- `parse_twilio_payload` (base64 and form decoding) is not modelled. The handler receives
  the decoded form, or nothing when decoding raised. Repeated form keys are not modelled:
  a form is a list of fields with distinct keys.
- HMAC-SHA1 and base64 are one function parameter, `Mac`. Base64 output is always ASCII;
  the model lets `Mac` return any text. `hmac.compare_digest` is modelled as equality that
  raises when either side holds a non-ASCII character; its constant-time behaviour is not
  modelled.
- `str.isalnum`, the regex class `\w` and `str.lower` are modelled on ASCII. Python also
  accepts non-ASCII letters and digits.
- `Text.ParseInt`: does not accept underscores or non-ASCII digits, which Python's `int()` accepts.
- The `question` processor (handler.py:256-367) is not modelled: its call to a language-model
  API, its e-mail and its writes to the store. Processors are pure functions of their
  context that succeed with a result or fail with an error.
- `send_email` is modelled by the e-mail it would hand to the mail service. The MIME
  encoding and the mail service's own failures are left out (they are caught and do not
  change the response).
- The clock (`datetime.now`) is a parameter. So are the faults of the store's reads and
  writes and the outcome of each media download.
- Environment loading is the `Config` value, which stands for `Settings.Load` of the
  environment: `allowedNumbers` is `ParseAllowList` of `ALLOWED_PHONE_NUMBERS` and
  `attachLogFile` is `AttachFlag` of `ATTACH_LOG_FILE`. Reading the variables is not modelled.
- ParseAllowList: its own contract states only that every number is stripped and
  non-empty; that the numbers are the stripped comma pieces in order is stated by
  `Settings.AllowListPieces`, `Settings.KeepStrippedAppend` and `Settings.KeepStrippedOne`.
- NonEmpty: its own contract states only which values are kept; the order is
  stated by `MessageLog.NonEmptyAppend` and `MessageLog.LocationValues`.
- Concurrency is not modelled: two calls from one sender racing on the read-append-write
  sequence. Logging with `print` is not modelled either.
- Media data are strings. The media URL is used only to decide whether an attachment is
  attempted; the HTTP fetch itself is a parameter. The `ContentType` metadata of stored
  objects is not modelled, and neither is the store client passed in the processor context.
- The model raises inside the handler's `try` block only where the source can raise: a
  form that cannot be decoded, `headers` that are null, a signature or MAC with a
  non-ASCII character in `hmac.compare_digest`, an attachment count that is not an integer,
  and a failing log write. Other failures, such as an unavailable store client, are not modelled.
