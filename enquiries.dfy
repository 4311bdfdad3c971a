/** The enumerations an enquiry is classified by, with their wire names, and the two
    intent predicates that the validator, the creation route and the widget all use. */
module Enquiries {
  import opened Wrappers

  datatype Mode = General | Fleet | Parcel | PartEx | Stock

  datatype EnquiryType = QuickQuestion | Quote | FleetEnquiry | PartExchange

  datatype Status = New | Contacted | Closed

  datatype Queue = GeneralQueue | FleetQueue | ValuationsQueue

  datatype Priority = High | Normal

  function ModeName(m: Mode): string {
    match m
    case General => "GENERAL"
    case Fleet => "FLEET"
    case Parcel => "PARCEL"
    case PartEx => "PART_EX"
    case Stock => "STOCK"
  }

  /** Membership in the mode enumeration: recognised exactly when `s` is the name of a mode. */
  function ModeFromName(s: string): (r: Option<Mode>)
    ensures r.Some? ==> ModeName(r.value) == s
    ensures r.None? ==> forall m: Mode :: ModeName(m) != s
  {
    if s == "GENERAL" then Some(General)
    else if s == "FLEET" then Some(Fleet)
    else if s == "PARCEL" then Some(Parcel)
    else if s == "PART_EX" then Some(PartEx)
    else if s == "STOCK" then Some(Stock)
    else None
  }

  function TypeName(t: EnquiryType): string {
    match t
    case QuickQuestion => "QUICK_QUESTION"
    case Quote => "QUOTE"
    case FleetEnquiry => "FLEET_ENQUIRY"
    case PartExchange => "PART_EXCHANGE"
  }

  /** Membership in the type enumeration: recognised exactly when `s` is the name of a type. */
  function TypeFromName(s: string): (r: Option<EnquiryType>)
    ensures r.Some? ==> TypeName(r.value) == s
    ensures r.None? ==> forall t: EnquiryType :: TypeName(t) != s
  {
    if s == "QUICK_QUESTION" then Some(QuickQuestion)
    else if s == "QUOTE" then Some(Quote)
    else if s == "FLEET_ENQUIRY" then Some(FleetEnquiry)
    else if s == "PART_EXCHANGE" then Some(PartExchange)
    else None
  }

  function StatusName(s: Status): string {
    match s
    case New => "NEW"
    case Contacted => "CONTACTED"
    case Closed => "CLOSED"
  }

  /** Membership in the status enumeration. */
  function StatusFromName(s: string): (r: Option<Status>)
    ensures r.Some? ==> StatusName(r.value) == s
    ensures r.None? ==> forall st: Status :: StatusName(st) != s
  {
    if s == "NEW" then Some(New)
    else if s == "CONTACTED" then Some(Contacted)
    else if s == "CLOSED" then Some(Closed)
    else None
  }

  function QueueName(q: Queue): string {
    match q
    case GeneralQueue => "GENERAL"
    case FleetQueue => "FLEET"
    case ValuationsQueue => "VALUATIONS"
  }

  /** Membership in the queue enumeration. */
  function QueueFromName(s: string): (r: Option<Queue>)
    ensures r.Some? ==> QueueName(r.value) == s
    ensures r.None? ==> forall q: Queue :: QueueName(q) != s
  {
    if s == "GENERAL" then Some(GeneralQueue)
    else if s == "FLEET" then Some(FleetQueue)
    else if s == "VALUATIONS" then Some(ValuationsQueue)
    else None
  }

  /** Names are read back as the value they name: each enumeration's names are distinct. */
  lemma NamesRoundTrip(m: Mode, t: EnquiryType, st: Status, q: Queue)
    ensures ModeFromName(ModeName(m)) == Some(m)
    ensures TypeFromName(TypeName(t)) == Some(t)
    ensures StatusFromName(StatusName(st)) == Some(st)
    ensures QueueFromName(QueueName(q)) == Some(q)
  {
  }

  /** `mode === "FLEET" || type === "FLEET_ENQUIRY"`. */
  predicate IsFleet(m: Mode, t: EnquiryType) {
    m == Fleet || t == FleetEnquiry
  }

  /** `mode === "PART_EX" || type === "PART_EXCHANGE"`. */
  predicate NeedsPartEx(m: Mode, t: EnquiryType) {
    m == PartEx || t == PartExchange
  }
}
