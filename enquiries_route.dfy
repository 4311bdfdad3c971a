/** `POST /api/enquiries` and `GET /api/enquiries`: a validated submission is routed to a
    queue with a priority and an SLA deadline and stored with its normalised fields, its
    tracking context and, for part exchanges, the vehicle details; the listing filters by
    exact enumeration values and returns the newest enquiries first. The database calls
    themselves are not part of this model. */
module EnquiriesRoute {
  import opened Wrappers
  import opened Strings
  import opened Enquiries
  import opened Validation

  /** Where the enquiry was made from and the marketing tags that came with it. */
  datatype Context = Context(
    pageUrl: string, referrer: Option<string>, utmSource: Option<string>,
    utmMedium: Option<string>, utmCampaign: Option<string>, device: Option<string>)

  /** The vehicle offered in part exchange. */
  datatype PartExDetails = PartExDetails(reg: string, mileage: real)

  /** The row `prisma.enquiry.create` is given. */
  datatype EnquiryRecord = EnquiryRecord(
    mode: Mode, enquiryType: EnquiryType, name: string, priority: Priority, slaDueAt: int,
    queue: Queue, email: Option<string>, phone: Option<string>, message: string,
    companyName: Option<string>, fleetSizeBand: Option<string>, timeframe: Option<string>,
    context: Context, partEx: Option<PartExDetails>)

  /** The response of the creation route: 201 with the record, or 400 when the schema
      rejects the body or building the record throws. */
  datatype PostResponse = Created(record: EnquiryRecord) | Rejected(issues: seq<Issue>) | Failed(error: string)

  function StatusCode(r: PostResponse): int {
    if r.Created? then 201 else 400
  }

  /** Fleet enquiries go to the fleet queue, part exchanges to valuations, the rest to the
      general queue; a fleet part exchange is a fleet enquiry. */
  function QueueOf(m: Mode, t: EnquiryType): (q: Queue)
    ensures q == FleetQueue <==> IsFleet(m, t)
    ensures q == ValuationsQueue <==> !IsFleet(m, t) && NeedsPartEx(m, t)
    ensures q == GeneralQueue <==> !IsFleet(m, t) && !NeedsPartEx(m, t)
  {
    if IsFleet(m, t) then FleetQueue else if NeedsPartEx(m, t) then ValuationsQueue else GeneralQueue
  }

  /** `isHigh`: a fleet or part-exchange mode or type. */
  function PriorityOf(m: Mode, t: EnquiryType): (p: Priority)
    ensures p == High <==> IsFleet(m, t) || NeedsPartEx(m, t)
  {
    if t == FleetEnquiry || t == PartExchange || m == Fleet || m == PartEx then High else Normal
  }

  /** The priority is high exactly for fleet and part-exchange enquiries, which are exactly
      those routed away from the general queue. */
  lemma PriorityFollowsQueue(m: Mode, t: EnquiryType)
    ensures PriorityOf(m, t) == High <==> IsFleet(m, t) || NeedsPartEx(m, t)
    ensures PriorityOf(m, t) == Normal <==> QueueOf(m, t) == GeneralQueue
  {
  }

  const MinuteMs := 60 * 1000

  /** The SLA target: 15 minutes for high priority, 60 for normal, counted from `now`. */
  function SlaDueAt(p: Priority, now: int): (due: int)
    ensures due > now
    ensures p == High ==> due == now + 900000
    ensures p == Normal ==> due == now + 3600000
  {
    var slaMinutes := if p == High then 15 else 60;
    now + slaMinutes * MinuteMs
  }

  /** `value?.trim() ? value.trim() : null` and `value?.trim() || null`: the trimmed value,
      or absent when it is absent or blank. */
  function TrimmedOrNull(value: Option<string>): (r: Option<string>)
    ensures r.Some? <==> value.Some? && Trim(value.value) != ""
    ensures r.Some? ==> r.value == Trim(value.value)
  {
    if value.Some? && Trim(value.value) != "" then Some(Trim(value.value)) else None
  }

  /** `data.pageUrl ?? referer ?? "unknown"`. */
  function PageUrlOf(pageUrl: Option<string>, referer: Option<string>): (r: string)
    ensures pageUrl.Some? ==> r == pageUrl.value
    ensures pageUrl.None? && referer.Some? ==> r == referer.value
    ensures pageUrl.None? && referer.None? ==> r == "unknown"
  {
    match pageUrl
    case Some(url) => url
    case None =>
      match referer
      case Some(r) => r
      case None => "unknown"
  }

  /** The part-exchange child: built only for a part-exchange mode or type, where `reg!`
      on an absent registration throws and an absent mileage is refused by the store. */
  function PartExOf(d: EnquiryInput): (r: Result<Option<PartExDetails>, string>)
    ensures r.Success? && r.value.Some? ==> (NeedsPartEx(d.mode, d.enquiryType)
      && d.reg.Some? && d.mileage.Some? && r.value.value == PartExDetails(Trim(d.reg.value), d.mileage.value))
    ensures !NeedsPartEx(d.mode, d.enquiryType) ==> r == Success(None)
    ensures NeedsPartEx(d.mode, d.enquiryType) && (d.reg.None? || d.mileage.None?) ==> r.Failure?
    ensures NeedsPartEx(d.mode, d.enquiryType) && d.reg.Some? && d.mileage.Some?
      ==> r == Success(Some(PartExDetails(Trim(d.reg.value), d.mileage.value)))
  {
    if !NeedsPartEx(d.mode, d.enquiryType) then Success(None)
    else if d.reg.None? then Failure("Cannot read properties of undefined (reading 'trim')")
    else if d.mileage.None? then Failure("Argument `mileage` is missing.")
    else Success(Some(PartExDetails(Trim(d.reg.value), d.mileage.value)))
  }

  /** `enquiryData`, built from the parsed body, the `referer` header and the clock. */
  function BuildEnquiry(d: EnquiryInput, referer: Option<string>, now: int): (r: Result<EnquiryRecord, string>)
    ensures r.Success? <==> PartExOf(d).Success?
    ensures r.Failure? ==> r.error == PartExOf(d).error
    ensures r.Success? ==> (
      && r.value.mode == d.mode && r.value.enquiryType == d.enquiryType
      && r.value.queue == QueueOf(d.mode, d.enquiryType)
      && (r.value.priority == High <==> r.value.queue != GeneralQueue)
      && r.value.slaDueAt > now
      && r.value.context.pageUrl == PageUrlOf(d.pageUrl, referer)
      && (r.value.partEx.Some? <==> NeedsPartEx(d.mode, d.enquiryType)))
    ensures r.Success? ==> (
      && r.value.name == d.name && r.value.message == d.message
      && r.value.priority == PriorityOf(d.mode, d.enquiryType)
      && r.value.slaDueAt == SlaDueAt(PriorityOf(d.mode, d.enquiryType), now)
      && r.value.email == TrimmedOrNull(d.email) && r.value.phone == TrimmedOrNull(d.phone)
      && r.value.companyName == TrimmedOrNull(d.companyName)
      && r.value.fleetSizeBand == TrimmedOrNull(d.fleetSizeBand)
      && r.value.timeframe == TrimmedOrNull(d.timeframe)
      && r.value.context == Context(PageUrlOf(d.pageUrl, referer), d.referrer, d.utmSource,
                                    d.utmMedium, d.utmCampaign, d.device)
      && r.value.partEx == PartExOf(d).value)
  {
    var priority := PriorityOf(d.mode, d.enquiryType);
    var context := Context(PageUrlOf(d.pageUrl, referer), d.referrer, d.utmSource, d.utmMedium, d.utmCampaign, d.device);
    match PartExOf(d)
    case Failure(e) => Failure(e)
    case Success(partEx) =>
      Success(EnquiryRecord(
        d.mode, d.enquiryType, d.name, priority, SlaDueAt(priority, now), QueueOf(d.mode, d.enquiryType),
        TrimmedOrNull(d.email), TrimmedOrNull(d.phone), d.message,
        TrimmedOrNull(d.companyName), TrimmedOrNull(d.fleetSizeBand), TrimmedOrNull(d.timeframe),
        context, partEx))
  }

  /** The non-null assertions on `reg` and `mileage` never fail on an accepted body: its
      part-exchange child, if any, is always built. */
  lemma AcceptedPartExBuilds(s: Submission, isEmail: string -> bool, isUrl: string -> bool, d: EnquiryInput)
    requires Validate(s, isEmail, isUrl) == Success(d)
    ensures PartExOf(d).Success?
    ensures PartExOf(d).value.Some? <==> NeedsPartEx(d.mode, d.enquiryType)
  {
    AcceptedIsGuaranteed(s, isEmail, isUrl, d);
  }

  /** `POST`: validate, then build the record. */
  function Post(s: Submission, isEmail: string -> bool, isUrl: string -> bool, referer: Option<string>, now: int): (r: PostResponse)
    ensures r.Rejected? <==> Validate(s, isEmail, isUrl).Failure?
    ensures r.Rejected? ==> r.issues == Validate(s, isEmail, isUrl).error
  {
    match Validate(s, isEmail, isUrl)
    case Failure(issues) => Rejected(issues)
    case Success(d) =>
      match BuildEnquiry(d, referer, now)
      case Failure(e) => Failed(e)
      case Success(record) => Created(record)
  }

  /** Once the schema has accepted the body, building the record cannot throw: the
      non-null assertions on the registration and mileage are safe. */
  lemma AcceptedBodyIsCreated(s: Submission, isEmail: string -> bool, isUrl: string -> bool, referer: Option<string>, now: int)
    ensures Post(s, isEmail, isUrl, referer, now).Created? <==> Validate(s, isEmail, isUrl).Success?
    ensures StatusCode(Post(s, isEmail, isUrl, referer, now)) == 201 <==> Acceptable(s, isEmail, isUrl)
  {
    ValidateAcceptsExactly(s, isEmail, isUrl);
    if Validate(s, isEmail, isUrl).Success? {
      AcceptedIsGuaranteed(s, isEmail, isUrl, Validate(s, isEmail, isUrl).value);
    }
  }

  /** What every created record satisfies: routing, priority and deadline follow the
      intent (15 minutes for high priority, 60 otherwise), a contact is present, the page
      URL is never missing and the part-exchange child exists exactly for part exchanges,
      with a registration of at least two characters and a positive whole mileage. How each
      field is taken from the submission is `CreatedRecordStoresInput`. */
  lemma CreatedRecordFacts(s: Submission, isEmail: string -> bool, isUrl: string -> bool, referer: Option<string>, now: int, e: EnquiryRecord)
    requires Post(s, isEmail, isUrl, referer, now) == Created(e)
    ensures ModeName(e.mode) == s.mode.value && TypeName(e.enquiryType) == s.enquiryType.value
    ensures e.queue == QueueOf(e.mode, e.enquiryType)
    ensures e.priority == High <==> e.queue != GeneralQueue
    ensures e.slaDueAt > now
    ensures e.slaDueAt == now + (if e.priority == High then 900000 else 3600000)
    ensures e.email.Some? || e.phone.Some?
    ensures e.email.Some? ==> e.email.value != "" && e.email.value == Trim(s.email.value)
    ensures e.phone.Some? ==> e.phone.value != "" && e.phone.value == Trim(s.phone.value)
    ensures e.companyName == TrimmedOrNull(s.companyName)
    ensures e.context.pageUrl == PageUrlOf(s.pageUrl, referer)
    ensures e.partEx.Some? <==> NeedsPartEx(e.mode, e.enquiryType)
    ensures e.partEx.Some? ==> |e.partEx.value.reg| >= 2 && e.partEx.value.mileage > 0.0 && IsInteger(e.partEx.value.mileage)
  {
    var d := Validate(s, isEmail, isUrl).value;
    AcceptedIsNormalised(s, isEmail, isUrl, d);
    AcceptedIsGuaranteed(s, isEmail, isUrl, d);
    PriorityFollowsQueue(d.mode, d.enquiryType);
    if s.email.Some? { TrimIdempotent(s.email.value); }
    if s.phone.Some? { TrimIdempotent(s.phone.value); }
    if s.companyName.Some? { TrimIdempotent(s.companyName.value); }
    if d.reg.Some? { TrimIdempotent(s.reg.value); }
  }
  /** Every stored field comes from the submission as the route builds it: name and message
      trimmed; email, phone, company name, fleet size band and timeframe trimmed, or null
      when blank; the priority from the intent and the deadline from the priority; the
      context passed through with the page URL's fallbacks. */
  lemma CreatedRecordStoresInput(s: Submission, isEmail: string -> bool, isUrl: string -> bool, referer: Option<string>, now: int, e: EnquiryRecord)
    requires Post(s, isEmail, isUrl, referer, now) == Created(e)
    ensures e.name == Trim(s.name.value) && e.message == Trim(s.message.value)
    ensures e.priority == PriorityOf(e.mode, e.enquiryType) && e.slaDueAt == SlaDueAt(e.priority, now)
    ensures e.email == TrimmedOrNull(s.email) && e.phone == TrimmedOrNull(s.phone)
    ensures e.companyName == TrimmedOrNull(s.companyName)
    ensures e.fleetSizeBand == TrimmedOrNull(s.fleetSizeBand) && e.timeframe == TrimmedOrNull(s.timeframe)
    ensures e.context == Context(PageUrlOf(s.pageUrl, referer), s.referrer, s.utmSource, s.utmMedium, s.utmCampaign, s.device)
  {
    var d := Validate(s, isEmail, isUrl).value;
    AcceptedIsNormalised(s, isEmail, isUrl, d);
    if s.email.Some? { TrimIdempotent(s.email.value); }
    if s.phone.Some? { TrimIdempotent(s.phone.value); }
    if s.companyName.Some? { TrimIdempotent(s.companyName.value); }
    if s.fleetSizeBand.Some? { TrimIdempotent(s.fleetSizeBand.value); }
    if s.timeframe.Some? { TrimIdempotent(s.timeframe.value); }
  }


  /** An enquiry as the listing reads it back. */
  datatype StoredEnquiry = StoredEnquiry(id: string, createdAt: int, status: Status, record: EnquiryRecord)

  /** The `mode`, `status` and `queue` search parameters (absent when not in the URL). */
  datatype Query = Query(mode: Option<string>, status: Option<string>, queue: Option<string>)

  /** A parameter constrains the listing only when it is present and non-empty. */
  function Active(param: Option<string>): (r: Option<string>)
    ensures r.Some? <==> param.Some? && param.value != ""
    ensures r.Some? ==> r == param
  {
    if param.Some? && param.value != "" then param else None
  }

  /** The equality filters of the listing. */
  predicate Matches(e: StoredEnquiry, q: Query) {
    && (Active(q.mode).Some? ==> ModeName(e.record.mode) == q.mode.value)
    && (Active(q.status).Some? ==> StatusName(e.status) == q.status.value)
    && (Active(q.queue).Some? ==> QueueName(e.record.queue) == q.queue.value)
  }

  /** A parameter naming no value of its enumeration is refused by the store. */
  predicate WellFormedQuery(q: Query) {
    && (Active(q.mode).Some? ==> ModeFromName(q.mode.value).Some?)
    && (Active(q.status).Some? ==> StatusFromName(q.status.value).Some?)
    && (Active(q.queue).Some? ==> QueueFromName(q.queue.value).Some?)
  }

  /** The enquiries that pass the filters, in their original order. */
  function Filter(items: seq<StoredEnquiry>, q: Query): (r: seq<StoredEnquiry>)
    ensures forall e :: e in r <==> e in items && Matches(e, q)
    ensures multiset(r) <= multiset(items)
    ensures forall e :: Matches(e, q) ==> multiset(r)[e] == multiset(items)[e]
  {
    if items == [] then []
    else
      var rest := Filter(items[1..], q);
      assert items == [items[0]] + items[1..];
      if Matches(items[0], q) then [items[0]] + rest else rest
  }

  predicate NewestFirst(items: seq<StoredEnquiry>) {
    forall i, j :: 0 <= i < j < |items| ==> items[i].createdAt >= items[j].createdAt
  }

  /** Places an enquiry among enquiries already ordered newest first. */
  function InsertByDate(e: StoredEnquiry, sorted: seq<StoredEnquiry>): (r: seq<StoredEnquiry>)
    requires NewestFirst(sorted)
    ensures NewestFirst(r)
    ensures multiset(r) == multiset(sorted) + multiset{e}
    ensures |r| == |sorted| + 1 && (r[0] == e || (sorted != [] && r[0] == sorted[0]))
  {
    if sorted == [] || sorted[0].createdAt <= e.createdAt then
      PrependNewest(e, sorted);
      [e] + sorted
    else
      var rest := InsertByDate(e, sorted[1..]);
      assert sorted == [sorted[0]] + sorted[1..];
      PrependNewest(sorted[0], rest);
      [sorted[0]] + rest
  }

  /** Putting an enquiry no older than the head in front keeps a list newest first. */
  lemma PrependNewest(x: StoredEnquiry, items: seq<StoredEnquiry>)
    requires NewestFirst(items)
    requires items != [] ==> items[0].createdAt <= x.createdAt
    ensures NewestFirst([x] + items)
  {
    var r := [x] + items;
    forall i, j | 0 <= i < j < |r| ensures r[i].createdAt >= r[j].createdAt {
      assert r[j] == items[j - 1];
      if i > 0 {
        assert r[i] == items[i - 1];
      }
    }
  }

  /** `orderBy: { createdAt: "desc" }`: the same enquiries, newest first. */
  function SortNewestFirst(items: seq<StoredEnquiry>): (r: seq<StoredEnquiry>)
    ensures NewestFirst(r)
    ensures multiset(r) == multiset(items)
  {
    if items == [] then []
    else
      assert items == [items[0]] + items[1..];
      InsertByDate(items[0], SortNewestFirst(items[1..]))
  }

  /** `GET`: the stored enquiries that pass every active filter, newest first; a parameter
      naming no enumeration value is an error from the store. */
  function List(store: seq<StoredEnquiry>, q: Query): (r: Result<seq<StoredEnquiry>, string>)
    ensures r.Failure? <==> !WellFormedQuery(q)
    ensures r.Success? ==> NewestFirst(r.value)
    ensures r.Success? ==> forall e :: e in r.value <==> e in store && Matches(e, q)
    ensures r.Success? ==> forall e :: Matches(e, q) ==> multiset(r.value)[e] == multiset(store)[e]
  {
    if !WellFormedQuery(q) then Failure("Invalid value for argument")
    else
      var r := SortNewestFirst(Filter(store, q));
      assert forall e :: e in r <==> e in multiset(r);
      Success(r)
  }

  /** Absent and empty parameters filter nothing: the listing is every stored enquiry. */
  lemma EmptyQueryListsAll(store: seq<StoredEnquiry>, q: Query)
    requires q.mode in {None, Some("")} && q.status in {None, Some("")} && q.queue in {None, Some("")}
    ensures List(store, q).Success?
    ensures multiset(List(store, q).value) == multiset(store)
  {
    var r := List(store, q).value;
    forall e ensures multiset(r)[e] == multiset(store)[e] {
      assert Matches(e, q);
    }
    assert multiset(r) == multiset(store);
  }
}
