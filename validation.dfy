/** `CreateEnquirySchema`: the submission validator of the public enquiry form. A submission
    is either turned into a normalised `EnquiryInput` or rejected with the list of issues,
    each attributed to a field path.

    Field checks run in the schema's key order. A check that fails on a value of the right
    type leaves the value in place and only adds an issue; a value of the wrong type (a
    missing required field, an unknown enumeration name, a coerced mileage that is NaN)
    aborts the object, and then the cross-field checks of `superRefine` do not run. */
module Validation {
  import opened Wrappers
  import opened Strings
  import opened Enquiries

  /** A JavaScript number after `z.coerce.number()`. */
  datatype JsNumber = NaN | Finite(value: real)

  predicate IsInteger(x: real) {
    x.Floor as real == x
  }

  /** The submitted payload: every field absent or a string (mileage: the coerced number). */
  datatype Submission = Submission(
    mode: Option<string>, enquiryType: Option<string>, name: Option<string>,
    email: Option<string>, phone: Option<string>, message: Option<string>,
    pageUrl: Option<string>, referrer: Option<string>, utmSource: Option<string>,
    utmMedium: Option<string>, utmCampaign: Option<string>, device: Option<string>,
    reg: Option<string>, mileage: Option<JsNumber>,
    companyName: Option<string>, fleetSizeBand: Option<string>, timeframe: Option<string>)

  /** The parsed, normalised payload (`CreateEnquiryInput`). */
  datatype EnquiryInput = EnquiryInput(
    mode: Mode, enquiryType: EnquiryType, name: string,
    email: Option<string>, phone: Option<string>, message: string,
    pageUrl: Option<string>, referrer: Option<string>, utmSource: Option<string>,
    utmMedium: Option<string>, utmCampaign: Option<string>, device: Option<string>,
    reg: Option<string>, mileage: Option<real>,
    companyName: Option<string>, fleetSizeBand: Option<string>, timeframe: Option<string>)

  /** What an issue says: the schema's messages, as codes with their rendered text. */
  datatype Message =
    | Required | NameRequired | MessageRequired | InvalidEmail | PhoneTooShort | InvalidUrl
    | NotANumber | NotAnInteger | NotPositive | TooLong(maximum: nat)
    | InvalidEnumValue(options: string, received: string)
    | CompanyNameEmpty | ContactMissing | RegMissing | MileageMissing

  /** The text an issue carries in the 400 response: the schema's own messages, and zod 3's
      default wording for the built-in checks. */
  function Text(m: Message): string {
    match m
    case Required => "Required"
    case NameRequired => "Name is required"
    case MessageRequired => "Message is required"
    case InvalidEmail => "Invalid email"
    case PhoneTooShort => "Phone looks too short"
    case InvalidUrl => "Invalid url"
    case NotANumber => "Expected number, received nan"
    case NotAnInteger => "Expected integer, received float"
    case NotPositive => "Number must be greater than 0"
    case TooLong(n) => "String must contain at most " + NatToString(n) + " character(s)"
    case InvalidEnumValue(options, received) => "Invalid enum value. Expected " + options + ", received '" + received + "'"
    case CompanyNameEmpty => "Company name can't be empty if provided."
    case ContactMissing => "Please provide an email or a phone number."
    case RegMissing => "Vehicle registration is required for part exchange."
    case MileageMissing => "Mileage is required for part exchange."
  }

  /** The messages only the cross-field checks of `superRefine` use. */
  predicate IsRefinement(m: Message) {
    m.CompanyNameEmpty? || m.ContactMissing? || m.RegMissing? || m.MileageMissing?
  }

  datatype Issue = Issue(path: string, message: Message)

  /** None of the issues uses a message of `superRefine`. */
  predicate FieldLevel(issues: seq<Issue>) {
    forall i :: 0 <= i < |issues| ==> !IsRefinement(issues[i].message)
  }

  lemma FieldLevelConcat(a: seq<Issue>, b: seq<Issue>)
    requires FieldLevel(a) && FieldLevel(b)
    ensures FieldLevel(a + b)
  {
  }

  /** The outcome of one field's schema: a value of the field's type plus the issues its
      checks raised, or no value at all when the input had the wrong type. */
  datatype Parsed<T> = Typed(value: T, issues: seq<Issue>) | Untyped(issues: seq<Issue>)

  const ModeOptions := "'GENERAL' | 'FLEET' | 'PARCEL' | 'PART_EX' | 'STOCK'"
  const TypeOptions := "'QUICK_QUESTION' | 'QUOTE' | 'FLEET_ENQUIRY' | 'PART_EXCHANGE'"

  /** `raw?.trim()`: the trimmed value, absent when absent. */
  function TrimmedOpt(raw: Option<string>): (r: Option<string>)
    ensures r.Some? <==> raw.Some?
    ensures r.Some? ==> r.value == Trim(raw.value)
  {
    match raw
    case None => None
    case Some(s) => Some(Trim(s))
  }

  /** `EnquiryModeSchema`. */
  function ParseMode(raw: Option<string>): (p: Parsed<Mode>)
    ensures p.Typed? <==> raw.Some? && ModeFromName(raw.value).Some?
    ensures p.Typed? ==> p.issues == [] && ModeName(p.value) == raw.value
    ensures p.Untyped? ==> |p.issues| == 1 && p.issues[0].path == "mode"
    ensures FieldLevel(p.issues)
  {
    match raw
    case None => Untyped([Issue("mode", Required)])
    case Some(s) =>
      match ModeFromName(s)
      case Some(m) => Typed(m, [])
      case None => Untyped([Issue("mode", InvalidEnumValue(ModeOptions, s))])
  }

  /** `EnquiryTypeSchema`. */
  function ParseType(raw: Option<string>): (p: Parsed<EnquiryType>)
    ensures p.Typed? <==> raw.Some? && TypeFromName(raw.value).Some?
    ensures p.Typed? ==> p.issues == [] && TypeName(p.value) == raw.value
    ensures p.Untyped? ==> |p.issues| == 1 && p.issues[0].path == "type"
    ensures FieldLevel(p.issues)
  {
    match raw
    case None => Untyped([Issue("type", Required)])
    case Some(s) =>
      match TypeFromName(s)
      case Some(t) => Typed(t, [])
      case None => Untyped([Issue("type", InvalidEnumValue(TypeOptions, s))])
  }

  /** `z.string().trim().min(1, emptyMessage).max(maxLen)`: required, non-blank and capped. */
  function ParseRequiredText(path: string, raw: Option<string>, maxLen: nat, emptyMessage: Message): (p: Parsed<string>)
    requires !IsRefinement(emptyMessage)
    ensures p.Untyped? <==> raw.None?
    ensures p.Untyped? ==> p.issues == [Issue(path, Required)]
    ensures p.Typed? ==> p.value == Trim(raw.value)
    ensures p.Typed? ==> (p.issues == [] <==> 1 <= |Trim(raw.value)| <= maxLen)
    ensures FieldLevel(p.issues)
  {
    match raw
    case None => Untyped([Issue(path, Required)])
    case Some(s) =>
      var t := Trim(s);
      Typed(t, (if |t| < 1 then [Issue(path, emptyMessage)] else [])
             + (if |t| > maxLen then [Issue(path, TooLong(maxLen))] else []))
  }

  /** `z.string().trim().email().optional().or(z.literal(""))`: the trimmed address, or ""
      kept as "" rather than reported as a malformed address. */
  function ParseEmail(raw: Option<string>, isEmail: string -> bool): (p: Parsed<Option<string>>)
    ensures p.Typed? && p.value == TrimmedOpt(raw)
    ensures p.issues == [] <==> (raw.Some? && raw.value != "" ==> isEmail(Trim(raw.value)))
    ensures p.issues != [] ==> p.issues == [Issue("email", InvalidEmail)]
    ensures FieldLevel(p.issues)
  {
    match raw
    case None => Typed(None, [])
    case Some(s) =>
      if isEmail(Trim(s)) then Typed(Some(Trim(s)), [])
      else if s == "" then Typed(Some(""), [])
      else Typed(Some(Trim(s)), [Issue("email", InvalidEmail)])
  }

  /** `z.string().trim().min(6).max(30).optional().or(z.literal(""))`. */
  function ParsePhone(raw: Option<string>): (p: Parsed<Option<string>>)
    ensures p.Typed? && p.value == TrimmedOpt(raw)
    ensures p.issues == [] <==> (raw.Some? && raw.value != "" ==> 6 <= |Trim(raw.value)| <= 30)
    ensures forall i :: 0 <= i < |p.issues| ==> p.issues[i].path == "phone"
    ensures FieldLevel(p.issues)
  {
    match raw
    case None => Typed(None, [])
    case Some(s) =>
      var t := Trim(s);
      var issues := (if |t| < 6 then [Issue("phone", PhoneTooShort)] else [])
                  + (if |t| > 30 then [Issue("phone", TooLong(30))] else []);
      if issues == [] then Typed(Some(t), [])
      else if s == "" then Typed(Some(""), [])
      else Typed(Some(t), issues)
  }

  /** `z.string().url().optional()`, the URL syntax check left abstract. */
  function ParsePageUrl(raw: Option<string>, isUrl: string -> bool): (p: Parsed<Option<string>>)
    ensures p.Typed? && p.value == raw
    ensures p.issues == [] <==> (raw.Some? ==> isUrl(raw.value))
    ensures p.issues != [] ==> p.issues == [Issue("pageUrl", InvalidUrl)]
    ensures FieldLevel(p.issues)
  {
    match raw
    case None => Typed(None, [])
    case Some(s) => Typed(Some(s), if isUrl(s) then [] else [Issue("pageUrl", InvalidUrl)])
  }

  /** `z.coerce.number().int().positive().optional()`. */
  function ParseMileage(raw: Option<JsNumber>): (p: Parsed<Option<real>>)
    ensures p.Untyped? <==> raw == Some(NaN)
    ensures p.Untyped? ==> p.issues == [Issue("mileage", NotANumber)]
    ensures p.Typed? ==> p.value == (if raw.Some? then Some(raw.value.value) else None)
    ensures p.Typed? ==> (p.issues == [] <==> (raw.Some? ==> IsInteger(raw.value.value) && raw.value.value > 0.0))
    ensures forall i :: 0 <= i < |p.issues| ==> p.issues[i].path == "mileage"
    ensures FieldLevel(p.issues)
  {
    match raw
    case None => Typed(None, [])
    case Some(NaN) => Untyped([Issue("mileage", NotANumber)])
    case Some(Finite(x)) =>
      Typed(Some(x), (if IsInteger(x) then [] else [Issue("mileage", NotAnInteger)])
                   + (if x > 0.0 then [] else [Issue("mileage", NotPositive)]))
  }

  /** `z.string().trim().max(maxLen).optional()`. */
  function ParseOptionalText(path: string, raw: Option<string>, maxLen: nat): (p: Parsed<Option<string>>)
    ensures p.Typed? && p.value == TrimmedOpt(raw)
    ensures p.issues == [] <==> (raw.Some? ==> |Trim(raw.value)| <= maxLen)
    ensures p.issues != [] ==> p.issues == [Issue(path, TooLong(maxLen))]
    ensures FieldLevel(p.issues)
  {
    match raw
    case None => Typed(None, [])
    case Some(s) => Typed(Some(Trim(s)), if |Trim(s)| <= maxLen then [] else [Issue(path, TooLong(maxLen))])
  }

  /** The input has the type of the object schema: no field aborted. */
  predicate WellTyped(s: Submission) {
    && s.mode.Some? && ModeFromName(s.mode.value).Some?
    && s.enquiryType.Some? && TypeFromName(s.enquiryType.value).Some?
    && s.name.Some? && s.message.Some?
    && (s.mileage.Some? ==> s.mileage.value.Finite?)
  }

  /** Issues of the per-field checks, in the schema's key order. */
  function FieldIssues(s: Submission, isEmail: string -> bool, isUrl: string -> bool): seq<Issue> {
    ParseMode(s.mode).issues
    + ParseType(s.enquiryType).issues
    + ParseRequiredText("name", s.name, 100, NameRequired).issues
    + ParseEmail(s.email, isEmail).issues
    + ParsePhone(s.phone).issues
    + ParseRequiredText("message", s.message, 2000, MessageRequired).issues
    + ParsePageUrl(s.pageUrl, isUrl).issues
    + ParseMileage(s.mileage).issues
    + ParseOptionalText("companyName", s.companyName, 120).issues
    + ParseOptionalText("fleetSizeBand", s.fleetSizeBand, 50).issues
    + ParseOptionalText("timeframe", s.timeframe, 50).issues
  }

  /** The object the field schemas produce from a well-typed input, which `superRefine`
      then inspects: strings trimmed, the contextual fields passed through. */
  function Draft(s: Submission): EnquiryInput
    requires WellTyped(s)
  {
    EnquiryInput(
      ModeFromName(s.mode.value).value, TypeFromName(s.enquiryType.value).value,
      Trim(s.name.value), TrimmedOpt(s.email), TrimmedOpt(s.phone), Trim(s.message.value),
      s.pageUrl, s.referrer, s.utmSource, s.utmMedium, s.utmCampaign, s.device,
      TrimmedOpt(s.reg), if s.mileage.Some? then Some(s.mileage.value.value) else None,
      TrimmedOpt(s.companyName), TrimmedOpt(s.fleetSizeBand), TrimmedOpt(s.timeframe))
  }

  /** The draft holds exactly the values the field schemas produce. */
  lemma DraftIsParsedValues(s: Submission, isEmail: string -> bool, isUrl: string -> bool)
    requires WellTyped(s)
    ensures ParseMode(s.mode) == Typed(Draft(s).mode, [])
    ensures ParseType(s.enquiryType) == Typed(Draft(s).enquiryType, [])
    ensures ParseRequiredText("name", s.name, 100, NameRequired).value == Draft(s).name
    ensures ParseEmail(s.email, isEmail).value == Draft(s).email
    ensures ParsePhone(s.phone).value == Draft(s).phone
    ensures ParseRequiredText("message", s.message, 2000, MessageRequired).value == Draft(s).message
    ensures ParsePageUrl(s.pageUrl, isUrl).value == Draft(s).pageUrl
    ensures ParseMileage(s.mileage).Typed? && ParseMileage(s.mileage).value == Draft(s).mileage
    ensures ParseOptionalText("companyName", s.companyName, 120).value == Draft(s).companyName
    ensures ParseOptionalText("fleetSizeBand", s.fleetSizeBand, 50).value == Draft(s).fleetSizeBand
    ensures ParseOptionalText("timeframe", s.timeframe, 50).value == Draft(s).timeframe
  {
    NamesRoundTrip(Draft(s).mode, Draft(s).enquiryType, New, GeneralQueue);
  }

  /** `hasEmail`: an email that is non-empty after trimming. */
  predicate HasEmail(d: EnquiryInput) {
    d.email.Some? && Trim(d.email.value) != ""
  }

  /** `hasPhone`: a phone that is non-empty after trimming. */
  predicate HasPhone(d: EnquiryInput) {
    d.phone.Some? && Trim(d.phone.value) != ""
  }

  /** The fleet check of `superRefine`: a blank company name on a fleet enquiry. */
  function FleetIssues(d: EnquiryInput): seq<Issue> {
    if IsFleet(d.mode, d.enquiryType) && d.companyName.Some? && Trim(d.companyName.value) == ""
    then [Issue("companyName", CompanyNameEmpty)] else []
  }

  /** The contact check of `superRefine`: neither an email nor a phone. */
  function ContactIssues(d: EnquiryInput): seq<Issue> {
    if !HasEmail(d) && !HasPhone(d) then [Issue("email", ContactMissing)] else []
  }

  /** The part-exchange check of `superRefine`: registration and mileage are required. */
  function PartExIssues(d: EnquiryInput): seq<Issue> {
    if NeedsPartEx(d.mode, d.enquiryType) then
      (if d.reg.None? || |d.reg.value| < 2 then [Issue("reg", RegMissing)] else [])
      + (if d.mileage.None? then [Issue("mileage", MileageMissing)] else [])
    else []
  }

  /** All issues `superRefine` adds, in the order it adds them. */
  function CrossFieldIssues(d: EnquiryInput): seq<Issue> {
    FleetIssues(d) + ContactIssues(d) + PartExIssues(d)
  }

  /** `CreateEnquirySchema.safeParse`: a rejection always carries at least one issue. */
  function Validate(s: Submission, isEmail: string -> bool, isUrl: string -> bool): (r: Result<EnquiryInput, seq<Issue>>)
    ensures r.Failure? ==> |r.error| > 0
  {
    var fieldIssues := FieldIssues(s, isEmail, isUrl);
    if !WellTyped(s) then
      Failure(fieldIssues)
    else
      var issues := fieldIssues + CrossFieldIssues(Draft(s));
      if issues == [] then Success(Draft(s)) else Failure(issues)
  }

  /** The issues reported for a submission: none when it is accepted. */
  function IssuesOf(r: Result<EnquiryInput, seq<Issue>>): seq<Issue> {
    match r
    case Success(_) => []
    case Failure(issues) => issues
  }

  /** An email or a phone that is non-empty after trimming was submitted. */
  predicate ProvidesContact(s: Submission) {
    (s.email.Some? && Trim(s.email.value) != "") || (s.phone.Some? && Trim(s.phone.value) != "")
  }

  /** The declarative statement of what the schema accepts. */
  ghost predicate Acceptable(s: Submission, isEmail: string -> bool, isUrl: string -> bool) {
    && WellTyped(s)
    && var m := ModeFromName(s.mode.value).value;
    && var t := TypeFromName(s.enquiryType.value).value;
    && 1 <= |Trim(s.name.value)| <= 100
    && 1 <= |Trim(s.message.value)| <= 2000
    && (s.email.Some? && s.email.value != "" ==> isEmail(Trim(s.email.value)))
    && (s.phone.Some? && s.phone.value != "" ==> 6 <= |Trim(s.phone.value)| <= 30)
    && (s.pageUrl.Some? ==> isUrl(s.pageUrl.value))
    && (s.mileage.Some? ==> IsInteger(s.mileage.value.value) && s.mileage.value.value > 0.0)
    && (s.companyName.Some? ==> |Trim(s.companyName.value)| <= 120)
    && (s.fleetSizeBand.Some? ==> |Trim(s.fleetSizeBand.value)| <= 50)
    && (s.timeframe.Some? ==> |Trim(s.timeframe.value)| <= 50)
    && ProvidesContact(s)
    && (IsFleet(m, t) && s.companyName.Some? ==> Trim(s.companyName.value) != "")
    && (NeedsPartEx(m, t) ==> s.reg.Some? && |Trim(s.reg.value)| >= 2 && s.mileage.Some?)
  }

  /** The checks of `superRefine` see the raw submission through trimmed values. */
  lemma DraftReadsSubmission(s: Submission)
    requires WellTyped(s)
    ensures HasEmail(Draft(s)) || HasPhone(Draft(s)) <==> ProvidesContact(s)
    ensures Draft(s).companyName.Some? && Trim(Draft(s).companyName.value) == ""
        <==> s.companyName.Some? && Trim(s.companyName.value) == ""
  {
    if s.email.Some? { TrimIdempotent(s.email.value); }
    if s.phone.Some? { TrimIdempotent(s.phone.value); }
    if s.companyName.Some? { TrimIdempotent(s.companyName.value); }
  }

  /** The per-field checks report nothing exactly when their part of `Acceptable` holds. */
  lemma FieldIssuesEmpty(s: Submission, isEmail: string -> bool, isUrl: string -> bool)
    requires WellTyped(s)
    ensures FieldIssues(s, isEmail, isUrl) == [] <==>
      && 1 <= |Trim(s.name.value)| <= 100
      && 1 <= |Trim(s.message.value)| <= 2000
      && (s.email.Some? && s.email.value != "" ==> isEmail(Trim(s.email.value)))
      && (s.phone.Some? && s.phone.value != "" ==> 6 <= |Trim(s.phone.value)| <= 30)
      && (s.pageUrl.Some? ==> isUrl(s.pageUrl.value))
      && (s.mileage.Some? ==> IsInteger(s.mileage.value.value) && s.mileage.value.value > 0.0)
      && (s.companyName.Some? ==> |Trim(s.companyName.value)| <= 120)
      && (s.fleetSizeBand.Some? ==> |Trim(s.fleetSizeBand.value)| <= 50)
      && (s.timeframe.Some? ==> |Trim(s.timeframe.value)| <= 50)
  {
  }

  /** The cross-field checks report nothing exactly when their part of `Acceptable` holds. */
  lemma CrossFieldIssuesEmpty(s: Submission)
    requires WellTyped(s)
    ensures var m := Draft(s).mode;
      var t := Draft(s).enquiryType;
      CrossFieldIssues(Draft(s)) == [] <==>
      && ProvidesContact(s)
      && (IsFleet(m, t) && s.companyName.Some? ==> Trim(s.companyName.value) != "")
      && (NeedsPartEx(m, t) ==> s.reg.Some? && |Trim(s.reg.value)| >= 2 && s.mileage.Some?)
  {
    DraftReadsSubmission(s);
  }

  /** The validator accepts exactly the submissions `Acceptable` describes. */
  lemma ValidateAcceptsExactly(s: Submission, isEmail: string -> bool, isUrl: string -> bool)
    ensures Validate(s, isEmail, isUrl).Success? <==> Acceptable(s, isEmail, isUrl)
  {
    if WellTyped(s) {
      FieldIssuesEmpty(s, isEmail, isUrl);
      CrossFieldIssuesEmpty(s);
    }
  }

  /** What an accepted submission is turned into: string fields trimmed, the contextual
      fields and the mileage passed through unchanged. */
  lemma AcceptedIsNormalised(s: Submission, isEmail: string -> bool, isUrl: string -> bool, d: EnquiryInput)
    requires Validate(s, isEmail, isUrl) == Success(d)
    ensures ModeName(d.mode) == s.mode.value && TypeName(d.enquiryType) == s.enquiryType.value
    ensures d.name == Trim(s.name.value) && d.message == Trim(s.message.value)
    ensures d.email == TrimmedOpt(s.email) && d.phone == TrimmedOpt(s.phone)
    ensures d.pageUrl == s.pageUrl && d.referrer == s.referrer && d.device == s.device
    ensures d.utmSource == s.utmSource && d.utmMedium == s.utmMedium && d.utmCampaign == s.utmCampaign
    ensures d.reg == TrimmedOpt(s.reg)
    ensures d.mileage == (if s.mileage.Some? then Some(s.mileage.value.value) else None)
    ensures d.companyName == TrimmedOpt(s.companyName)
    ensures d.fleetSizeBand == TrimmedOpt(s.fleetSizeBand) && d.timeframe == TrimmedOpt(s.timeframe)
  {
  }

  /** What the creation route may rely on for a record the schema produced. */
  ghost predicate Guaranteed(d: EnquiryInput) {
    && 1 <= |d.name| <= 100 && 1 <= |d.message| <= 2000
    && (HasEmail(d) || HasPhone(d))
    && (d.mileage.Some? ==> IsInteger(d.mileage.value) && d.mileage.value > 0.0)
    && (NeedsPartEx(d.mode, d.enquiryType) ==> d.reg.Some? && |d.reg.value| >= 2 && d.mileage.Some?)
    && (IsFleet(d.mode, d.enquiryType) && d.companyName.Some? ==> d.companyName.value != "")
  }

  /** Every accepted record carries the guarantees of the schema. */
  lemma AcceptedIsGuaranteed(s: Submission, isEmail: string -> bool, isUrl: string -> bool, d: EnquiryInput)
    requires Validate(s, isEmail, isUrl) == Success(d)
    ensures Guaranteed(d)
  {
    ValidateAcceptsExactly(s, isEmail, isUrl);
    DraftReadsSubmission(s);
  }

  /** With a well-typed input the field issues come first, then those of `superRefine`. */
  lemma IssuesOfWellTyped(s: Submission, isEmail: string -> bool, isUrl: string -> bool)
    requires WellTyped(s)
    ensures IssuesOf(Validate(s, isEmail, isUrl)) == FieldIssues(s, isEmail, isUrl) + CrossFieldIssues(Draft(s))
  {
  }

  /** No per-field check uses a message of `superRefine`. */
  lemma FieldIssuesAreFieldLevel(s: Submission, isEmail: string -> bool, isUrl: string -> bool, issue: Issue)
    requires issue in FieldIssues(s, isEmail, isUrl)
    ensures !IsRefinement(issue.message)
  {
    var p0 := ParseMode(s.mode).issues;
    var p1 := p0 + ParseType(s.enquiryType).issues;
    FieldLevelConcat(p0, ParseType(s.enquiryType).issues);
    var p2 := p1 + ParseRequiredText("name", s.name, 100, NameRequired).issues;
    FieldLevelConcat(p1, ParseRequiredText("name", s.name, 100, NameRequired).issues);
    var p3 := p2 + ParseEmail(s.email, isEmail).issues;
    FieldLevelConcat(p2, ParseEmail(s.email, isEmail).issues);
    var p4 := p3 + ParsePhone(s.phone).issues;
    FieldLevelConcat(p3, ParsePhone(s.phone).issues);
    var p5 := p4 + ParseRequiredText("message", s.message, 2000, MessageRequired).issues;
    FieldLevelConcat(p4, ParseRequiredText("message", s.message, 2000, MessageRequired).issues);
    var p6 := p5 + ParsePageUrl(s.pageUrl, isUrl).issues;
    FieldLevelConcat(p5, ParsePageUrl(s.pageUrl, isUrl).issues);
    var p7 := p6 + ParseMileage(s.mileage).issues;
    FieldLevelConcat(p6, ParseMileage(s.mileage).issues);
    var p8 := p7 + ParseOptionalText("companyName", s.companyName, 120).issues;
    FieldLevelConcat(p7, ParseOptionalText("companyName", s.companyName, 120).issues);
    var p9 := p8 + ParseOptionalText("fleetSizeBand", s.fleetSizeBand, 50).issues;
    FieldLevelConcat(p8, ParseOptionalText("fleetSizeBand", s.fleetSizeBand, 50).issues);
    FieldLevelConcat(p9, ParseOptionalText("timeframe", s.timeframe, 50).issues);
    assert FieldLevel(FieldIssues(s, isEmail, isUrl));
  }

  /** An issue carrying a `superRefine` message is reported exactly when `superRefine` adds it. */
  lemma CrossFieldIssueReported(s: Submission, isEmail: string -> bool, isUrl: string -> bool, issue: Issue)
    requires WellTyped(s)
    requires IsRefinement(issue.message)
    ensures issue in IssuesOf(Validate(s, isEmail, isUrl)) <==> issue in CrossFieldIssues(Draft(s))
  {
    IssuesOfWellTyped(s, isEmail, isUrl);
    if issue in FieldIssues(s, isEmail, isUrl) {
      FieldIssuesAreFieldLevel(s, isEmail, isUrl, issue);
    }
  }

  /** `mode` is accepted only as the name of a mode: a missing or unknown one (including "")
      is reported on "mode" and the cross-field checks do not run. */
  lemma UnknownModeRejected(s: Submission, isEmail: string -> bool, isUrl: string -> bool)
    requires s.mode.None? || ModeFromName(s.mode.value).None?
    ensures Validate(s, isEmail, isUrl) == Failure(FieldIssues(s, isEmail, isUrl))
    ensures Issue("mode", if s.mode.None? then Required else InvalidEnumValue(ModeOptions, s.mode.value))
      in IssuesOf(Validate(s, isEmail, isUrl))
  {
  }

  /** `type` is accepted only as the name of an enquiry type. */
  lemma UnknownTypeRejected(s: Submission, isEmail: string -> bool, isUrl: string -> bool)
    requires s.enquiryType.None? || TypeFromName(s.enquiryType.value).None?
    ensures Validate(s, isEmail, isUrl) == Failure(FieldIssues(s, isEmail, isUrl))
    ensures Issue("type", if s.enquiryType.None? then Required else InvalidEnumValue(TypeOptions, s.enquiryType.value))
      in IssuesOf(Validate(s, isEmail, isUrl))
  {
  }

  /** A name or message that is blank after trimming is rejected with its own message. */
  lemma BlankNameOrMessageRejected(s: Submission, isEmail: string -> bool, isUrl: string -> bool)
    requires (s.name.Some? && Trim(s.name.value) == "") || (s.message.Some? && Trim(s.message.value) == "")
    ensures Validate(s, isEmail, isUrl).Failure?
    ensures s.name.Some? && Trim(s.name.value) == "" ==> Issue("name", NameRequired) in IssuesOf(Validate(s, isEmail, isUrl))
    ensures s.message.Some? && Trim(s.message.value) == "" ==> Issue("message", MessageRequired) in IssuesOf(Validate(s, isEmail, isUrl))
  {
    if WellTyped(s) {
      IssuesOfWellTyped(s, isEmail, isUrl);
    }
  }

  /** How many of the issues carry a given message. */
  function CountMessage(issues: seq<Issue>, message: Message): nat {
    if issues == [] then 0
    else (if issues[0].message == message then 1 else 0) + CountMessage(issues[1..], message)
  }

  lemma {:induction false} CountMessageConcat(a: seq<Issue>, b: seq<Issue>, message: Message)
    ensures CountMessage(a + b, message) == CountMessage(a, message) + CountMessage(b, message)
    decreases |a|
  {
    if a == [] {
      assert a + b == b;
    } else {
      assert (a + b)[1..] == a[1..] + b;
      CountMessageConcat(a[1..], b, message);
    }
  }

  lemma {:induction false} CountMessageAbsent(issues: seq<Issue>, message: Message)
    requires forall i :: 0 <= i < |issues| ==> issues[i].message != message
    ensures CountMessage(issues, message) == 0
    decreases |issues|
  {
    if issues != [] {
      CountMessageAbsent(issues[1..], message);
    }
  }

  /** The contact check of `superRefine` on the draft of a submission. */
  lemma ContactIssuesOfDraft(s: Submission)
    requires WellTyped(s)
    ensures Issue("email", ContactMissing) in CrossFieldIssues(Draft(s)) <==> !ProvidesContact(s)
    ensures CountMessage(CrossFieldIssues(Draft(s)), ContactMissing) == if ProvidesContact(s) then 0 else 1
  {
    DraftReadsSubmission(s);
    ContactIssuesOf(Draft(s));
  }

  /** The cross-field issues of any draft hold the contact issue once or not at all,
      according to whether an email or a phone is given. */
  lemma ContactIssuesOf(d: EnquiryInput)
    ensures Issue("email", ContactMissing) in CrossFieldIssues(d) <==> !(HasEmail(d) || HasPhone(d))
    ensures CountMessage(CrossFieldIssues(d), ContactMissing) == if HasEmail(d) || HasPhone(d) then 0 else 1
  {
    var fleet, contact, partEx := FleetIssues(d), ContactIssues(d), PartExIssues(d);
    assert CrossFieldIssues(d) == fleet + contact + partEx;
    assert forall i :: 0 <= i < |fleet| ==> fleet[i].message != ContactMissing;
    assert forall i :: 0 <= i < |partEx| ==> partEx[i].message != ContactMissing;
    CountMessageAbsent(fleet, ContactMissing);
    CountMessageAbsent(partEx, ContactMissing);
    assert CountMessage(contact, ContactMissing) == if HasEmail(d) || HasPhone(d) then 0 else 1;
    CountMessageConcat(fleet, contact, ContactMissing);
    CountMessageConcat(fleet + contact, partEx, ContactMissing);
  }

  /** The contact rule: without an email or a phone exactly one contact issue is added, on
      the path "email"; with either of them none is. */
  lemma ContactRule(s: Submission, isEmail: string -> bool, isUrl: string -> bool)
    requires WellTyped(s)
    ensures Issue("email", ContactMissing) in IssuesOf(Validate(s, isEmail, isUrl)) <==> !ProvidesContact(s)
    ensures CountMessage(CrossFieldIssues(Draft(s)), ContactMissing) == if ProvidesContact(s) then 0 else 1
  {
    CrossFieldIssueReported(s, isEmail, isUrl, Issue("email", ContactMissing));
    ContactIssuesOfDraft(s);
  }

  /** An empty email is accepted as "not provided" and kept as ""; a non-empty phone must
      have 6 to 30 characters after trimming. */
  lemma EmptyEmailAndPhoneBounds(s: Submission, isEmail: string -> bool, isUrl: string -> bool)
    ensures s.email == Some("") ==> ParseEmail(s.email, isEmail) == Typed(Some(""), [])
    ensures s.email == Some("") && Validate(s, isEmail, isUrl).Success? ==> Validate(s, isEmail, isUrl).value.email == Some("")
    ensures s.phone.Some? && s.phone.value != "" && Validate(s, isEmail, isUrl).Success? ==> 6 <= |Trim(s.phone.value)| <= 30
  {
    if Validate(s, isEmail, isUrl).Success? {
      ValidateAcceptsExactly(s, isEmail, isUrl);
    }
  }

  /** The part-exchange check of `superRefine` on the draft of a submission. */
  lemma PartExIssuesOfDraft(s: Submission)
    requires WellTyped(s)
    ensures var d := Draft(s);
      && (Issue("reg", RegMissing) in CrossFieldIssues(d) <==> NeedsPartEx(d.mode, d.enquiryType) && (s.reg.None? || |Trim(s.reg.value)| < 2))
      && (Issue("mileage", MileageMissing) in CrossFieldIssues(d) <==> NeedsPartEx(d.mode, d.enquiryType) && s.mileage.None?)
  {
    var d := Draft(s);
    var others := FleetIssues(d) + ContactIssues(d);
    assert CrossFieldIssues(d) == others + PartExIssues(d);
    assert Issue("reg", RegMissing) !in others && Issue("mileage", MileageMissing) !in others;
    assert d.reg == TrimmedOpt(s.reg) && d.mileage.None? == s.mileage.None?;
  }

  /** The part-exchange rule: for a part-exchange mode or type a missing or too short
      registration is reported on "reg" and a missing mileage on "mileage"; otherwise
      neither issue is ever reported. */
  lemma PartExRule(s: Submission, isEmail: string -> bool, isUrl: string -> bool)
    requires WellTyped(s)
    ensures var d := Draft(s);
      var issues := IssuesOf(Validate(s, isEmail, isUrl));
      && (Issue("reg", RegMissing) in issues <==> NeedsPartEx(d.mode, d.enquiryType) && (s.reg.None? || |Trim(s.reg.value)| < 2))
      && (Issue("mileage", MileageMissing) in issues <==> NeedsPartEx(d.mode, d.enquiryType) && s.mileage.None?)
  {
    CrossFieldIssueReported(s, isEmail, isUrl, Issue("reg", RegMissing));
    CrossFieldIssueReported(s, isEmail, isUrl, Issue("mileage", MileageMissing));
    PartExIssuesOfDraft(s);
  }

  /** A present mileage must be a positive whole number, whatever the mode. */
  lemma MileagePositiveInteger(s: Submission, isEmail: string -> bool, isUrl: string -> bool)
    requires s.mileage.Some?
    ensures Validate(s, isEmail, isUrl).Success? ==>
      s.mileage.value.Finite? && IsInteger(s.mileage.value.value) && s.mileage.value.value > 0.0
  {
    ValidateAcceptsExactly(s, isEmail, isUrl);
  }

  /** The fleet check of `superRefine` on the draft of a submission. */
  lemma FleetIssuesOfDraft(s: Submission)
    requires WellTyped(s)
    ensures Issue("companyName", CompanyNameEmpty) in CrossFieldIssues(Draft(s))
      <==> IsFleet(Draft(s).mode, Draft(s).enquiryType) && s.companyName.Some? && Trim(s.companyName.value) == ""
  {
    DraftReadsSubmission(s);
  }

  /** A company name that is blank after trimming is rejected only on a fleet enquiry. */
  lemma FleetCompanyRule(s: Submission, isEmail: string -> bool, isUrl: string -> bool)
    requires WellTyped(s)
    ensures Issue("companyName", CompanyNameEmpty) in IssuesOf(Validate(s, isEmail, isUrl))
      <==> IsFleet(Draft(s).mode, Draft(s).enquiryType) && s.companyName.Some? && Trim(s.companyName.value) == ""
  {
    CrossFieldIssueReported(s, isEmail, isUrl, Issue("companyName", CompanyNameEmpty));
    FleetIssuesOfDraft(s);
  }

  /** The three cross-field checks are independent: a part-exchange submission without any
      contact, registration or mileage is told about all of them at once. */
  lemma CrossFieldChecksReportTogether(s: Submission, isEmail: string -> bool, isUrl: string -> bool)
    requires WellTyped(s)
    requires s.mode == Some("PART_EX")
    requires !ProvidesContact(s) && s.reg.None? && s.mileage.None?
    ensures var issues := IssuesOf(Validate(s, isEmail, isUrl));
      Issue("email", ContactMissing) in issues && Issue("reg", RegMissing) in issues && Issue("mileage", MileageMissing) in issues
  {
    ContactRule(s, isEmail, isUrl);
    PartExRule(s, isEmail, isUrl);
  }

  /** When a field has the wrong type the cross-field checks do not run at all. */
  lemma CrossFieldChecksSkippedWhenUntyped(s: Submission, isEmail: string -> bool, isUrl: string -> bool, issue: Issue)
    requires !WellTyped(s)
    requires issue in IssuesOf(Validate(s, isEmail, isUrl))
    ensures !IsRefinement(issue.message)
  {
    FieldIssuesAreFieldLevel(s, isEmail, isUrl, issue);
  }
}
