/** The enquiry form's state: its default values, the intent chooser that switches mode
    and type (clearing the part-exchange fields when leaving part exchange), and the reset
    after a successful submission. */
module EnquiryWidget {
  import opened Wrappers
  import opened Strings
  import opened Enquiries
  import opened Validation

  /** One button of the intent chooser. */
  datatype Intent = Intent(caption: string, mode: Mode, enquiryType: EnquiryType)

  const Intents: seq<Intent> := [
    Intent("Quick question", General, QuickQuestion),
    Intent("Get a quote", General, Quote),
    Intent("Fleet enquiry", Fleet, FleetEnquiry),
    Intent("Part exchange", PartEx, PartExchange)
  ]

  /** What the page offers when it renders in a browser: the current URL, the referrer and
      the viewport width. Absent while rendering on the server. */
  datatype Browser = Browser(href: string, referrer: string, innerWidth: int)

  /** The device hint of the default values. */
  function DeviceOf(b: Browser): (d: string)
    ensures d == "mobile" <==> b.innerWidth < 768
    ensures d == "mobile" || d == "desktop"
  {
    if b.innerWidth < 768 then "mobile" else "desktop"
  }

  /** The form's default values, as the submission they would make. */
  function DefaultValues(defaultMode: Mode, defaultType: EnquiryType, browser: Option<Browser>): (s: Submission)
    ensures s.mode == Some(ModeName(defaultMode)) && s.enquiryType == Some(TypeName(defaultType))
    ensures s.name == Some("") && s.message == Some("") && s.email == Some("") && s.phone == Some("")
    ensures s.reg == Some("") && s.mileage.None?
    ensures s.companyName == Some("") && s.fleetSizeBand == Some("") && s.timeframe == Some("")
    ensures s.utmSource.None? && s.utmMedium.None? && s.utmCampaign.None?
    ensures browser.Some? ==>
      && s.pageUrl == Some(browser.value.href) && s.referrer == Some(browser.value.referrer)
      && s.device == Some(DeviceOf(browser.value))
    ensures browser.None? ==> s.pageUrl.None? && s.referrer.None? && s.device.None?
  {
    Submission(
      Some(ModeName(defaultMode)), Some(TypeName(defaultType)), Some(""), Some(""), Some(""), Some(""),
      if browser.Some? then Some(browser.value.href) else None,
      if browser.Some? then Some(browser.value.referrer) else None,
      None, None, None,
      if browser.Some? then Some(DeviceOf(browser.value)) else None,
      Some(""), None, Some(""), Some(""), Some(""))
  }

  /** A freshly opened form is refused as it stands: name and message are required. */
  lemma DefaultsAreIncomplete(defaultMode: Mode, defaultType: EnquiryType, browser: Option<Browser>,
                              isEmail: string -> bool, isUrl: string -> bool)
    ensures var r := Validate(DefaultValues(defaultMode, defaultType, browser), isEmail, isUrl);
      && r.Failure?
      && Issue("name", NameRequired) in IssuesOf(r)
      && Issue("message", MessageRequired) in IssuesOf(r)
  {
    var s := DefaultValues(defaultMode, defaultType, browser);
    assert Trim("") == "" by { TrimShape(""); }
    BlankNameOrMessageRejected(s, isEmail, isUrl);
  }

  /** The form held by the widget: mode and type are kept as the enumerations the hidden
      inputs carry; the remaining fields are what the form would submit. */
  class EnquiryForm {
    const defaultMode: Mode
    const defaultType: EnquiryType
    const browser: Option<Browser>
    var mode: Mode
    var enquiryType: EnquiryType
    var fields: Submission

    /** The submission the form makes from its current state. */
    function Values(): (s: Submission)
      reads this
      ensures s.mode == Some(ModeName(mode)) && s.enquiryType == Some(TypeName(enquiryType))
    {
      fields.(mode := Some(ModeName(mode)), enquiryType := Some(TypeName(enquiryType)))
    }

    constructor (defaultMode: Mode, defaultType: EnquiryType, browser: Option<Browser>)
      ensures this.defaultMode == defaultMode && this.defaultType == defaultType && this.browser == browser
      ensures Values() == DefaultValues(defaultMode, defaultType, browser)
    {
      this.defaultMode := defaultMode;
      this.defaultType := defaultType;
      this.browser := browser;
      mode := defaultMode;
      enquiryType := defaultType;
      fields := DefaultValues(defaultMode, defaultType, browser);
    }

    /** `needsPartEx` of the widget: the same predicate the validator and the route use. */
    predicate NeedsPartExNow()
      reads this
    {
      NeedsPartEx(mode, enquiryType)
    }

    /** `isFleet` of the widget. */
    predicate IsFleetNow()
      reads this
    {
      IsFleet(mode, enquiryType)
    }

    /** An intent button is shown selected when both its mode and its type are current. */
    predicate Selected(i: Intent)
      reads this
    {
      i.mode == mode && i.enquiryType == enquiryType
    }

    /** `chooseIntent(m, t)`: set mode and type; leaving part exchange clears the
        registration to "" and the mileage to undefined; nothing else changes. */
    method ChooseIntent(m: Mode, t: EnquiryType)
      modifies this
      ensures mode == m && enquiryType == t
      ensures !NeedsPartEx(m, t) ==> Values() == old(Values()).(mode := Some(ModeName(m)),
        enquiryType := Some(TypeName(t)), reg := Some(""), mileage := None)
      ensures NeedsPartEx(m, t) ==> Values() == old(Values()).(mode := Some(ModeName(m)),
        enquiryType := Some(TypeName(t)))
    {
      mode := m;
      enquiryType := t;
      if !(m == PartEx || t == PartExchange) {
        fields := fields.(reg := Some(""));
        fields := fields.(mileage := None);
      }
    }

    /** `reset({ ...defaultValues, mode, type })` after a successful submission. */
    method ResetAfterSubmit(submittedMode: Mode, submittedType: EnquiryType)
      modifies this
      ensures mode == submittedMode && enquiryType == submittedType
      ensures Values() == DefaultValues(defaultMode, defaultType, browser).(
        mode := Some(ModeName(submittedMode)), enquiryType := Some(TypeName(submittedType)))
    {
      mode := submittedMode;
      enquiryType := submittedType;
      fields := DefaultValues(defaultMode, defaultType, browser);
    }
  }

  /** No two buttons share a mode and type, so after choosing an intent exactly that button
      is shown selected. */
  lemma OnlyChosenIntentSelected(i: nat, j: nat)
    requires i < |Intents| && j < |Intents|
    ensures (Intents[j].mode == Intents[i].mode && Intents[j].enquiryType == Intents[i].enquiryType) <==> i == j
  {
  }

  /** Of the four intents only "Part exchange" needs the part-exchange fields and only
      "Fleet enquiry" is a fleet enquiry. */
  lemma IntentClassification(i: nat)
    requires i < |Intents|
    ensures NeedsPartEx(Intents[i].mode, Intents[i].enquiryType) <==> Intents[i].caption == "Part exchange"
    ensures IsFleet(Intents[i].mode, Intents[i].enquiryType) <==> Intents[i].caption == "Fleet enquiry"
  {
  }

  /** After switching away from part exchange the form can no longer be refused for its
      registration or mileage, whatever was typed there before. */
  lemma ClearedFormHasNoPartExIssues(s: Submission, m: Mode, t: EnquiryType,
                                     isEmail: string -> bool, isUrl: string -> bool)
    requires !NeedsPartEx(m, t)
    ensures var after := s.(mode := Some(ModeName(m)), enquiryType := Some(TypeName(t)), reg := Some(""), mileage := None);
      var issues := IssuesOf(Validate(after, isEmail, isUrl));
      && Issue("reg", RegMissing) !in issues && Issue("mileage", MileageMissing) !in issues
  {
    var after := s.(mode := Some(ModeName(m)), enquiryType := Some(TypeName(t)), reg := Some(""), mileage := None);
    NamesRoundTrip(m, t, New, GeneralQueue);
    if WellTyped(after) {
      PartExRule(after, isEmail, isUrl);
    } else {
      forall issue | issue in IssuesOf(Validate(after, isEmail, isUrl))
        ensures !IsRefinement(issue.message)
      {
        FieldIssuesAreFieldLevel(after, isEmail, isUrl, issue);
      }
    }
  }

  /** Choosing part exchange on a form whose registration is still the default "" and whose
      mileage is unset is refused on both fields. */
  lemma PartExNeedsBothFields(s: Submission, isEmail: string -> bool, isUrl: string -> bool)
    requires WellTyped(s) && s.reg == Some("") && s.mileage.None?
    requires s.mode == Some("PART_EX") || s.enquiryType == Some("PART_EXCHANGE")
    ensures var issues := IssuesOf(Validate(s, isEmail, isUrl));
      && Issue("reg", RegMissing) in issues && Issue("mileage", MileageMissing) in issues
  {
    PartExRule(s, isEmail, isUrl);
    assert Trim("") == "" by { TrimShape(""); }
  }
}
