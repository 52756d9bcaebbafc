/** The pure steps of the submission endpoint: reading the JSON body, trimming
    and checking the required fields, the defaults, the fixed responses, the
    notification and the Telegram notifier's guard. */
module Pipeline {
  import opened Wrappers
  import opened Text

  // ---------------------------------------------------------------------------
  // The request body
  // ---------------------------------------------------------------------------

  /** What data.get(key, '') can find for name, email or phone. */
  datatype Field = Absent | Str(s: string) | Null | NonString

  /** What data.get('message', '') can find. */
  datatype OptionalField = Omitted | Given(s: string) | GivenNull

  /** A form_type value: a string, None, a JSON number, boolean or list (which
      psycopg2 sends as such and PostgreSQL stores as its text form `cast`), or a
      JSON object, which psycopg2 cannot send. */
  datatype FormType = TextType(s: string) | NullType | CastType(cast: string) | ObjectType

  /** What data.get('form_type', ...) can find: None when the key is absent. */
  type FormTypeField = Option<FormType>

  /** request.get_json(): a JSON object, or a body that is not one (not JSON,
      or JSON that is not an object), on which data.get raises. */
  datatype Request =
    | NotAnObject
    | Form(name: Field, email: Field, phone: Field, formType: FormTypeField, message: OptionalField)

  /** The values submit_form goes on with once the body has been read and checked.
      A None is Python's None, stored as SQL NULL. */
  datatype Submission = Submission(
    name: string, email: string, phone: string,
    formType: FormType, message: Option<string>)

  datatype Failure = MissingFields | InternalError

  const DefaultFormType := "price_calculator"

  /** data.get(key, '').strip(): None when .strip() raises (null, number, ...). */
  function RequiredValue(f: Field): (r: Option<string>)
    ensures r.Some? <==> f.Absent? || f.Str?
    ensures r == Some("") <==> f.Absent? || (f.Str? && AllPySpace(f.s))
  {
    match f
    case Absent => Some("")
    case Str(s) => Some(Strip(s))
    case Null => None
    case NonString => None
  }

  /** data.get('form_type', 'price_calculator'): the value given, unstripped and
      unchecked, or "price_calculator" when the key is absent. */
  function FormTypeValue(f: FormTypeField): (t: FormType)
    ensures f.None? ==> t == TextType(DefaultFormType)
    ensures f.Some? ==> t == f.value
  {
    match f
    case None => TextType(DefaultFormType)
    case Some(t) => t
  }

  /** data.get('message', ''): the string given, unstripped, "" when the key is
      absent, and None for JSON null. */
  function MessageValue(f: OptionalField): (m: Option<string>)
    ensures m.None? <==> f.GivenNull?
    ensures f.Omitted? ==> m == Some("")
    ensures f.Given? ==> m == Some(f.s)
  {
    match f
    case Omitted => Some("")
    case Given(s) => Some(s)
    case GivenNull => None
  }

  /** A required field that passes `all([name, email, phone])`: a string with
      something other than whitespace in it. */
  predicate Filled(f: Field) {
    f.Str? && !AllPySpace(f.s)
  }

  /** A required field whose .strip() does not raise. */
  predicate Strippable(f: Field) {
    f.Absent? || f.Str?
  }

  /** The start of submit_form: the body read, the three strips, the two
      defaults and the `all([name, email, phone])` check.
      A body that is not an object, or a required field that is not a string,
      raises inside the try block and becomes an internal error. */
  function Parse(req: Request): (r: Result<Submission, Failure>)
    ensures r.Ok? <==> req.Form? && Filled(req.name) && Filled(req.email) && Filled(req.phone)
    ensures r == Err(MissingFields) <==>
      && req.Form? && Strippable(req.name) && Strippable(req.email) && Strippable(req.phone)
      && !(Filled(req.name) && Filled(req.email) && Filled(req.phone))
    ensures r.Ok? ==>
      && r.value.name == Strip(req.name.s) && r.value.email == Strip(req.email.s) && r.value.phone == Strip(req.phone.s)
      && r.value.name != "" && r.value.email != "" && r.value.phone != ""
      && r.value.formType == FormTypeValue(req.formType)
      && r.value.message == MessageValue(req.message)
  {
    match req
    case NotAnObject => Err(InternalError)
    case Form(n, e, p, t, m) =>
      var name := RequiredValue(n);
      var email := RequiredValue(e);
      var phone := RequiredValue(p);
      if name.None? || email.None? || phone.None? then Err(InternalError)
      else if name.value == "" || email.value == "" || phone.value == "" then Err(MissingFields)
      else Ok(Submission(name.value, email.value, phone.value, FormTypeValue(t), MessageValue(m)))
  }

  // ---------------------------------------------------------------------------
  // Responses
  // ---------------------------------------------------------------------------

  datatype Body = Success(message: string) | Error(error: string)

  datatype Response = Response(status: int, body: Body)

  const MissingFieldsResponse := Response(400, Error("Missing required fields"))
  const ConnectionFailedResponse := Response(500, Error("Database connection failed"))
  const InternalErrorResponse := Response(500, Error("Internal server error"))
  const SubmittedResponse := Response(200, Success("Form submitted successfully"))

  // ---------------------------------------------------------------------------
  // The notification and the notifier
  // ---------------------------------------------------------------------------

  const NoMessagePlaceholder := "No additional message"
  const TitlePrefix := "New Form Submission - "

  /** The labelled fields of the HTML text sent to the chat. */
  datatype Notification = Notification(
    title: string, name: string, email: string, phone: string, message: string, time: string)

  /** The f-string submit_form sends to Telegram once the rows are committed;
      time is datetime.now() already formatted. */
  function BuildNotification(sub: Submission, formType: string, time: string): (n: Notification)
    ensures n.title == TitlePrefix + Title(formType)
    ensures n.name == sub.name && n.email == sub.email && n.phone == sub.phone && n.time == time
    ensures sub.message.Some? && sub.message.value != "" ==> n.message == sub.message.value
    ensures sub.message.None? || sub.message == Some("") ==> n.message == NoMessagePlaceholder
  {
    Notification(
      TitlePrefix + Title(formType),
      sub.name, sub.email, sub.phone,
      if sub.message.Some? && sub.message.value != "" then sub.message.value else NoMessagePlaceholder,
      time)
  }

  /** TELEGRAM_BOT_TOKEN and TELEGRAM_CHAT_ID, empty when unset. */
  datatype TelegramConfig = TelegramConfig(botToken: string, chatId: string)

  /** The one HTTP POST send_telegram_message makes. */
  datatype TelegramPost = TelegramPost(url: string, chatId: string, text: Notification, parseMode: string)

  /** The guard and the request of send_telegram_message: no request at all when
      the token or the chat id is empty. */
  function TelegramRequest(cfg: TelegramConfig, msg: Notification): (p: Option<TelegramPost>)
    ensures p.None? <==> cfg.botToken == "" || cfg.chatId == ""
    ensures p.Some? ==> p.value.text == msg && p.value.chatId == cfg.chatId && p.value.parseMode == "HTML"
  {
    if cfg.botToken == "" || cfg.chatId == "" then None
    else Some(TelegramPost("https://api.telegram.org/bot" + cfg.botToken + "/sendMessage", cfg.chatId, msg, "HTML"))
  }

  /** send_telegram_message's result. `acknowledged` stands for the provider's
      answer: the POST returned without raising and with status 200. */
  function SendTelegramMessage(cfg: TelegramConfig, msg: Notification, acknowledged: bool): (ok: bool)
    ensures ok <==> TelegramRequest(cfg, msg).Some? && acknowledged
    ensures cfg.botToken == "" || cfg.chatId == "" ==> !ok
  {
    if cfg.botToken == "" || cfg.chatId == "" then false else acknowledged
  }
}
