/** The webhook entry point: configuration checks, signature check, sender checks, then the
    media downloads, the log append, the actions and the notification, and the response. */
module Handler {
  import opened Wrappers
  import opened Text
  import opened Payload
  import opened Signature
  import opened Commands
  import opened Identity
  import opened MessageLog
  import opened ObjectStore
  import opened Dispatch
  import opened Media
  import opened Settings

  /** The HTTP response; xml is set when the `Content-Type: application/xml` header is sent. */
  datatype Response = Response(status: int, body: string, xml: bool)

  const ConfigError := Response(500, "Server configuration error", false)
  const BadSignature := Response(403, "Invalid signature", false)
  const MissingFrom := Response(400, "Missing From number", false)
  const Unauthorized := Response(403, "Unauthorized", false)
  const ProcessingError := Response(500, "Error processing message", false)
  /** The empty TwiML reply: no answer is sent to the sender. */
  const Accepted := Response(200, "<?xml version=\"1.0\" encoding=\"UTF-8\"?><Response></Response>", true)

  /** The `headers` of a call: absent (read as no headers), null (reading the signature from
      it raises), or present with the `x-twilio-signature` value, if any. */
  datatype Headers = Missing | Null | Given(signature: Option<string>)

  /** A webhook call: the decoded form (None when decoding it raised) and its headers. */
  datatype Event = Event(payload: Option<Fields>, headers: Headers)

  /** The signature the handler reads: "" when there is none; None when reading raises. */
  function SignatureHeader(h: Headers): Option<string> {
    match h
    case Missing => Some("")
    case Null => None
    case Given(sig) => Some(sig.GetOr(""))
  }

  /** What the outside world does during one call: the clock, whether the log read and the
      log write raise, and the outcome of each media download. */
  datatype World = World(timestamp: string, readFault: bool, writeFault: bool, transfers: nat -> Transfer)

  /** A notification handed to the mail service: sender and recipient are both the
      configured address. */
  datatype Email = Email(address: string, subject: string, body: string, attachment: Option<string>, attachmentName: string)

  /** What a call returns and what it hands on: the response, the action records and the
      notification, if one is sent. */
  datatype CallOutcome = CallOutcome(response: Response, results: seq<ActionResult>, email: Option<Email>)

  /** The message fields the handler reads from the form, with their defaults. */
  datatype Message = Message(
    fromNumber: string,
    messageSid: string,
    toNumber: string,
    location: string,
    parsed: Parsed,
    numMediaField: string)

  function ReadMessage(p: Fields): Message
  {
    Message(
      Get(p, "From", ""),
      Get(p, "MessageSid", ""),
      Get(p, "To", ""),
      Location(Get(p, "FromCity", ""), Get(p, "FromState", ""), Get(p, "FromCountry", "")),
      ParseActions(Get(p, "Body", "")),
      Get(p, "NumMedia", "0"))
  }

  /** The four settings the handler cannot run without. */
  predicate ConfigComplete(cfg: Config) {
    cfg.bucket != "" && cfg.authToken != "" && cfg.allowedNumbers != [] && cfg.webhookUrl != ""
  }

  /** The check of the call's signature: None when the form does not decode or a step of
      the check raises, else its verdict. */
  function SignatureOf(cfg: Config, ev: Event, mac: Mac): Option<bool> {
    if ev.payload.None? || SignatureHeader(ev.headers).None? then None
    else SignatureCheck(cfg.webhookUrl, ev.payload.value, SignatureHeader(ev.headers).value, cfg.authToken, mac)
  }

  /** The checks that end a call before anything is stored, in the order the handler makes
      them; None when the call gets through all of them. */
  function Rejection(cfg: Config, ev: Event, mac: Mac): (r: Option<Response>)
    ensures !ConfigComplete(cfg) ==> r == Some(ConfigError)
    ensures ConfigComplete(cfg) && SignatureOf(cfg, ev, mac).None? ==> r == Some(ProcessingError)
    ensures ConfigComplete(cfg) && SignatureOf(cfg, ev, mac) == Some(false) ==> r == Some(BadSignature)
    ensures ConfigComplete(cfg) && SignatureOf(cfg, ev, mac) == Some(true) ==>
      var from := Get(ev.payload.value, "From", "");
      (from == "" ==> r == Some(MissingFrom)) &&
      (from != "" && from !in cfg.allowedNumbers ==> r == Some(Unauthorized)) &&
      (from != "" && from in cfg.allowedNumbers ==> r == None)
  {
    if !ConfigComplete(cfg) then Some(ConfigError)
    else
      match SignatureOf(cfg, ev, mac)
      case None => Some(ProcessingError)
      case Some(valid) =>
        if !valid then Some(BadSignature)
        else
          var from := Get(ev.payload.value, "From", "");
          if from == "" then Some(MissingFrom)
          else if from !in cfg.allowedNumbers then Some(Unauthorized)
          else None
  }

  /** A call gets through exactly when the configuration is complete, the form decodes, the
      signature header can be read, and holds an ASCII signature that is valid, and the
      sender is present and allowed. */
  lemma AdmittedIff(cfg: Config, ev: Event, mac: Mac)
    ensures Rejection(cfg, ev, mac).None? <==>
      ConfigComplete(cfg) && ev.payload.Some? && !ev.headers.Null? &&
      SignatureValid(cfg.webhookUrl, ev.payload.value, SignatureHeader(ev.headers).value, cfg.authToken, mac) &&
      IsAscii(SignatureHeader(ev.headers).value) &&
      Get(ev.payload.value, "From", "") != "" &&
      Get(ev.payload.value, "From", "") in cfg.allowedNumbers
  {
  }

  /** A configuration loaded from the environment is complete exactly when the bucket,
      the auth token and the webhook URL are set and some comma piece of the allow-list
      is not blank. */
  lemma LoadedConfigComplete(bucket: string, accountSid: string, authToken: string, notificationEmail: string,
                             attachRaw: string, allowedRaw: string, webhookUrl: string)
    ensures ConfigComplete(Load(bucket, accountSid, authToken, notificationEmail, attachRaw, allowedRaw, webhookUrl)) <==>
      bucket != "" && authToken != "" && webhookUrl != "" &&
      !AllBlank(Split(allowedRaw, ','))
  {
    AllowListEmpty(allowedRaw);
  }

  /** An allow-list of blanks and commas makes every call answer 500. */
  lemma BlankAllowListRejects(bucket: string, accountSid: string, authToken: string, notificationEmail: string,
                              attachRaw: string, allowedRaw: string, webhookUrl: string, ev: Event, mac: Mac)
    requires AllBlank(Split(allowedRaw, ','))
    ensures Rejection(Load(bucket, accountSid, authToken, notificationEmail, attachRaw, allowedRaw, webhookUrl), ev, mac) == Some(ConfigError)
  {
    AllowListEmpty(allowedRaw);
  }

  /** The log line of a message. */
  function EntryOf(m: Message, timestamp: string, numMedia: int, mediaKeys: seq<string>): Entry
  {
    Entry(timestamp, m.messageSid, m.toNumber, m.location, Join(m.parsed.actions, ','),
      IntToString(numMedia), Join(mediaKeys, ','), m.parsed.text)
  }

  /** What the processors are told about the message. */
  function ContextOf(m: Message, cfg: Config, timestamp: string, log: string): Context
  {
    Context(m.parsed.text, log, m.fromNumber, m.toNumber, m.messageSid, m.location, timestamp, cfg.bucket)
  }

  /** `send_email` for a stored message: nothing when no address is configured; the whole
      log is attached only when that is switched on. */
  function Notification(cfg: Config, m: Message, entry: Entry, log: string): (r: Option<Email>)
    ensures r.Some? <==> cfg.notificationEmail != ""
    ensures r.Some? ==> r.value.body == Render(entry) && (r.value.attachment.Some? <==> cfg.attachLogFile && log != "")
    ensures r.Some? && r.value.attachment.Some? ==> r.value.attachment.value == log
  {
    if cfg.notificationEmail == "" then None
    else
      Some(Email(cfg.notificationEmail, "AI ASSISTANT: Message " + m.messageSid + " Stored", Render(entry),
        if cfg.attachLogFile && log != "" then Some(log) else None, "message_log.log"))
  }

  /** The outcome of a call and the objects afterwards. */
  datatype Step = Step(outcome: CallOutcome, objects: map<string, string>)

  /** The download outcomes of a message that announces numMedia attachments. */
  function MediaOf(cfg: Config, p: Fields, world: World, numMedia: int): seq<Attempt> {
    Attempts(Credentials(cfg.accountSid, cfg.authToken), p, ReadMessage(p).messageSid, world.transfers,
      if numMedia < 0 then 0 else numMedia)
  }

  /** The log line of an admitted message. */
  function EntryFor(cfg: Config, p: Fields, world: World, numMedia: int): Entry {
    EntryOf(ReadMessage(p), world.timestamp, numMedia, KeysOf(MediaOf(cfg, p, world, numMedia)))
  }

  /** The specification of one call of the handler. */
  function Expected(cfg: Config, ev: Event, mac: Mac, world: World, processors: map<string, Processor>,
                    objects: map<string, string>): Step
  {
    var rejected := Rejection(cfg, ev, mac);
    if rejected.Some? then Step(CallOutcome(rejected.value, [], None), objects)
    else
      var p := ev.payload.value;
      var m := ReadMessage(p);
      var count := ParseInt(m.numMediaField);
      if count.None? then Step(CallOutcome(ProcessingError, [], None), objects)
      else
        var afterMedia := ObjectsAfter(objects, MediaOf(cfg, p, world, count.value));
        var entry := EntryFor(cfg, p, world, count.value);
        var key := LogKey(m.fromNumber);
        var log := ReadResult(afterMedia, key, world.readFault) + Render(entry);
        var stored := AfterPut(afterMedia, key, log, world.writeFault);
        if world.writeFault then Step(CallOutcome(ProcessingError, [], None), stored)
        else
          var results := if m.parsed.actions != [] then
            Run(processors, m.parsed.actions, ContextOf(m, cfg, world.timestamp, log)) else [];
          Step(CallOutcome(Accepted, results, Notification(cfg, m, entry, log)), stored)
  }

  /** A rejected call answers with its rejection and stores, runs and sends nothing. */
  lemma RejectedCallsWriteNothing(cfg: Config, ev: Event, mac: Mac, world: World,
                                  processors: map<string, Processor>, objects: map<string, string>)
    requires Rejection(cfg, ev, mac).Some?
    ensures var s := Expected(cfg, ev, mac, world, processors, objects);
      s.objects == objects && s.outcome == CallOutcome(Rejection(cfg, ev, mac).value, [], None)
  {
  }

  /** Every call answers 200, 400, 403 or 500, and 200 exactly when it was admitted, its
      attachment count is an integer and the log write succeeded. */
  lemma StatusCodes(cfg: Config, ev: Event, mac: Mac, world: World,
                    processors: map<string, Processor>, objects: map<string, string>)
    ensures var r := Expected(cfg, ev, mac, world, processors, objects).outcome.response;
      r.status in {200, 400, 403, 500} &&
      (r.status == 200 <==>
        Rejection(cfg, ev, mac).None? && ParseInt(ReadMessage(ev.payload.value).numMediaField).Some? && !world.writeFault) &&
      (r.status == 200 <==> r == Accepted)
  {
  }

  /** An accepted call leaves the sender's log as the text the read returned from before
      the call, followed by the new entry. */
  lemma AcceptedAppendsEntry(cfg: Config, ev: Event, mac: Mac, world: World,
                             processors: map<string, Processor>, objects: map<string, string>, p: Fields, n: int)
    requires ev.payload == Some(p) && ParseInt(ReadMessage(p).numMediaField) == Some(n)
    requires Expected(cfg, ev, mac, world, processors, objects).outcome.response.status == 200
    ensures var key := LogKey(Get(p, "From", ""));
      var after := Expected(cfg, ev, mac, world, processors, objects).objects;
      key in after && after[key] == ReadResult(objects, key, world.readFault) + Render(EntryFor(cfg, p, world, n))
  {
    StatusCodes(cfg, ev, mac, world, processors, objects);
    var m := ReadMessage(p);
    var outs := MediaOf(cfg, p, world, n);
    MediaKeepsLog(objects, Credentials(cfg.accountSid, cfg.authToken), p, m.messageSid, world.transfers,
      if n < 0 then 0 else n, m.fromNumber);
    assert ReadResult(ObjectsAfter(objects, outs), LogKey(m.fromNumber), world.readFault)
      == ReadResult(objects, LogKey(m.fromNumber), world.readFault);
  }

  /** When the read succeeds, the earlier lines of the log are kept and the entry's line is
      added as the last one. */
  lemma AcceptedKeepsHistory(cfg: Config, ev: Event, mac: Mac, world: World,
                             processors: map<string, Processor>, objects: map<string, string>, p: Fields, n: int)
    requires ev.payload == Some(p) && ParseInt(ReadMessage(p).numMediaField) == Some(n)
    requires Expected(cfg, ev, mac, world, processors, objects).outcome.response.status == 200
    requires !world.readFault
    requires LogKey(Get(p, "From", "")) in objects ==> LineTerminated(objects[LogKey(Get(p, "From", ""))])
    requires Clean(EntryFor(cfg, p, world, n))
    ensures var key := LogKey(Get(p, "From", ""));
      var before := if key in objects then objects[key] else "";
      var after := Expected(cfg, ev, mac, world, processors, objects).objects;
      key in after && Lines(after[key]) == Lines(before) + [Line(EntryFor(cfg, p, world, n))]
  {
    AcceptedAppendsEntry(cfg, ev, mac, world, processors, objects, p, n);
    var key := LogKey(Get(p, "From", ""));
    var before := if key in objects then objects[key] else "";
    AppendAddsOneLine(before, EntryFor(cfg, p, world, n));
  }

  /** When the read fails, the log is overwritten with the new entry alone, whatever it held:
      the earlier history is lost. */
  lemma ReadFaultLosesHistory(cfg: Config, ev: Event, mac: Mac, world: World,
                              processors: map<string, Processor>, objects: map<string, string>, p: Fields, n: int)
    requires ev.payload == Some(p) && ParseInt(ReadMessage(p).numMediaField) == Some(n)
    requires Expected(cfg, ev, mac, world, processors, objects).outcome.response.status == 200
    requires world.readFault
    ensures var after := Expected(cfg, ev, mac, world, processors, objects).objects;
      var key := LogKey(Get(p, "From", ""));
      key in after && after[key] == Render(EntryFor(cfg, p, world, n))
  {
    AcceptedAppendsEntry(cfg, ev, mac, world, processors, objects, p, n);
  }

  /** An accepted call runs one processor per registered action of the body, and its
      records are theirs in order. */
  lemma AcceptedRunsActions(cfg: Config, ev: Event, mac: Mac, world: World,
                            processors: map<string, Processor>, objects: map<string, string>, p: Fields, n: int)
    requires ev.payload == Some(p) && ParseInt(ReadMessage(p).numMediaField) == Some(n)
    requires Expected(cfg, ev, mac, world, processors, objects).outcome.response.status == 200
    ensures var actions := ReadMessage(p).parsed.actions;
      var rs := Expected(cfg, ev, mac, world, processors, objects).outcome.results;
      var names := Registered(processors, actions);
      |rs| == |names| && forall k :: 0 <= k < |rs| ==> rs[k].action == names[k]
  {
    StatusCodes(cfg, ev, mac, world, processors, objects);
    var m := ReadMessage(p);
    var afterMedia := ObjectsAfter(objects, MediaOf(cfg, p, world, n));
    var log := ReadResult(afterMedia, LogKey(m.fromNumber), world.readFault) + Render(EntryFor(cfg, p, world, n));
    RunRecords(processors, m.parsed.actions, ContextOf(m, cfg, world.timestamp, log));
  }

  /** In an accepted call the processors and the notification see exactly the log that
      was stored: the processors run on a context carrying it, and the attachment is it. */
  lemma AcceptedSeesStoredLog(cfg: Config, ev: Event, mac: Mac, world: World,
                              processors: map<string, Processor>, objects: map<string, string>, p: Fields, n: int)
    requires ev.payload == Some(p) && ParseInt(ReadMessage(p).numMediaField) == Some(n)
    requires Expected(cfg, ev, mac, world, processors, objects).outcome.response.status == 200
    ensures var m, step := ReadMessage(p), Expected(cfg, ev, mac, world, processors, objects);
      var key := LogKey(m.fromNumber);
      key in step.objects &&
      step.outcome.results ==
        (if m.parsed.actions != [] then Run(processors, m.parsed.actions, ContextOf(m, cfg, world.timestamp, step.objects[key])) else []) &&
      (step.outcome.email.Some? && step.outcome.email.value.attachment.Some? ==>
        step.outcome.email.value.attachment.value == step.objects[key])
  {
    StatusCodes(cfg, ev, mac, world, processors, objects);
  }

  /** A command token holds no comma. */
  lemma WordHasNoComma(t: string)
    requires IsWord(t)
    ensures ',' !in t
  {
    assert forall j :: 0 <= j < |t| ==> t[j] != ',' by {
      assert forall j :: 0 <= j < |t| ==> IsWordChar(t[j]);
    }
  }

  /** The actions field of a message's log line reads back as its actions: the line splits
      at tabs into eight fields, and the fifth splits at commas into the parsed commands. */
  lemma EntryActionsRoundTrip(p: Fields, timestamp: string, numMedia: int, mediaKeys: seq<string>)
    requires Clean(EntryOf(ReadMessage(p), timestamp, numMedia, mediaKeys))
    requires ReadMessage(p).parsed.actions != []
    ensures var fields := Split(Line(EntryOf(ReadMessage(p), timestamp, numMedia, mediaKeys)), '\t');
      |fields| == 8 && Split(fields[4], ',') == ReadMessage(p).parsed.actions
  {
    var m := ReadMessage(p);
    var e := EntryOf(m, timestamp, numMedia, mediaKeys);
    var actions := m.parsed.actions;
    forall k | 0 <= k < |actions| ensures ',' !in actions[k] {
      WordHasNoComma(actions[k]);
    }
    ActionsFieldRoundTrip(e, actions);
  }

  /** `handler`: one webhook call against the store, with the registered processors. */
  method Handle(cfg: Config, ev: Event, mac: Mac, world: World, registry: Registry, store: Store)
    returns (out: CallOutcome)
    modifies store
    ensures Step(out, store.objects) == Expected(cfg, ev, mac, world, registry.processors, old(store.objects))
  {
    if cfg.bucket == "" || cfg.authToken == "" || cfg.allowedNumbers == [] || cfg.webhookUrl == "" {
      return CallOutcome(ConfigError, [], None);
    }
    if ev.payload.None? {
      return CallOutcome(ProcessingError, [], None);
    }
    var p := ev.payload.value;
    var header := SignatureHeader(ev.headers);
    if header.None? {
      return CallOutcome(ProcessingError, [], None);
    }
    var verdict := ValidateSignature(cfg.webhookUrl, p, header.value, cfg.authToken, mac);
    if verdict.None? {
      return CallOutcome(ProcessingError, [], None);
    }
    if !verdict.value {
      return CallOutcome(BadSignature, [], None);
    }
    var from := Get(p, "From", "");
    if from == "" {
      return CallOutcome(MissingFrom, [], None);
    }
    if from !in cfg.allowedNumbers {
      return CallOutcome(Unauthorized, [], None);
    }
    var logKey := LogKey(from);
    var m := ReadMessage(p);
    var count := ParseInt(m.numMediaField);
    if count.None? {
      return CallOutcome(ProcessingError, [], None);
    }
    var numMedia := count.value;
    var mediaKeys := CollectMedia(store, Credentials(cfg.accountSid, cfg.authToken), p, m.messageSid, numMedia, world.transfers);
    var entry := EntryOf(m, world.timestamp, numMedia, mediaKeys);
    var existing := store.ReadLog(logKey, world.readFault);
    var updated := existing + Render(entry);
    var ok := store.Put(logKey, updated, world.writeFault);
    if !ok {
      return CallOutcome(ProcessingError, [], None);
    }
    var results := [];
    if m.parsed.actions != [] {
      results := registry.ProcessActions(m.parsed.actions, ContextOf(m, cfg, world.timestamp, updated));
    }
    out := CallOutcome(Accepted, results, Notification(cfg, m, entry, updated));
  }

  /** The registry as the module sets it up: the `question` processor and nothing else. */
  method DefaultRegistry(question: Processor) returns (registry: Registry)
    ensures fresh(registry)
    ensures registry.processors == map["question" := question]
  {
    registry := new Registry();
    registry.Register("question", question);
  }
}
