/** The admin triage board's client-side logic: relative ages of enquiries, the per-status
    tallies, the local update after a status change, and the search parameters of the
    listing request. */
module AdminBoard {
  import opened Wrappers
  import opened Strings
  import opened Enquiries
  import opened EnquiriesRoute

  // ---------------------------------------------------------------------------------
  // timeAgo

  /** `timeAgo`: `createdAt` is the parsed timestamp in milliseconds, `None` when the date does
      not parse (`getTime()` is NaN, every comparison fails and the days branch renders
      "NaN"). The minute, hour and day counts are floors, which Dafny's `/` is for a
      positive divisor. */
  function TimeAgo(now: int, createdAt: Option<int>): (s: string)
    ensures createdAt.None? ==> s == "NaNd ago"
    ensures createdAt.Some? && now - createdAt.value < 60000 ==> s == "just now"
  {
    match createdAt
    case None => "NaNd ago"
    case Some(t) =>
      var mins := (now - t) / 60000;
      if mins < 1 then "just now"
      else if mins < 60 then NatToString(mins) + "m ago"
      else
        var hrs := mins / 60;
        if hrs < 24 then NatToString(hrs) + "h ago"
        else
          var days := hrs / 24;
          NatToString(days) + "d ago"
  }

  /** The age bands in terms of the elapsed milliseconds alone: under a minute, including
      any future timestamp, is "just now"; then whole minutes below an hour, whole hours
      below a day, and whole days. */
  lemma TimeAgoBands(now: int, t: int)
    ensures var elapsed := now - t;
      && (elapsed < 60000 ==> TimeAgo(now, Some(t)) == "just now")
      && (60000 <= elapsed < 3600000 ==>
            TimeAgo(now, Some(t)) == NatToString(elapsed / 60000) + "m ago"
            && 1 <= elapsed / 60000 < 60)
      && (3600000 <= elapsed < 86400000 ==>
            TimeAgo(now, Some(t)) == NatToString(elapsed / 3600000) + "h ago"
            && 1 <= elapsed / 3600000 < 24)
      && (86400000 <= elapsed ==>
            TimeAgo(now, Some(t)) == NatToString(elapsed / 86400000) + "d ago"
            && elapsed / 86400000 >= 1)
  {
    var elapsed := now - t;
    var mins := elapsed / 60000;
    MinutesThenHours(elapsed);
    HoursThenDays(elapsed);
  }

  /** Whole hours counted from whole minutes are whole hours of the elapsed time. */
  lemma MinutesThenHours(x: int)
    ensures x / 60000 / 60 == x / 3600000
  {
    var q := x / 60000;
    var q2 := q / 60;
    assert x == 3600000 * q2 + 60000 * (q % 60) + x % 60000;
  }

  /** Whole days counted from whole hours of whole minutes are whole days of the elapsed time. */
  lemma HoursThenDays(x: int)
    ensures x / 60000 / 60 / 24 == x / 86400000
  {
    MinutesThenHours(x);
    var q := x / 3600000;
    var q2 := q / 24;
    assert x == 86400000 * q2 + 3600000 * (q % 24) + x % 3600000;
  }

  // ---------------------------------------------------------------------------------
  // counts

  datatype Counts = Counts(newCount: nat, contacted: nat, closed: nat)

  /** How many items have status `st`. */
  function CountStatus(items: seq<StoredEnquiry>, st: Status): (n: nat)
    ensures n <= |items|
  {
    if items == [] then 0
    else CountStatus(items[..|items| - 1], st) + (if items[|items| - 1].status == st then 1 else 0)
  }

  /** A tally is zero exactly when no item has the status, and the whole length exactly
      when every item has it. */
  lemma {:induction false} CountStatusExtremes(items: seq<StoredEnquiry>, st: Status)
    ensures CountStatus(items, st) == 0 <==> forall i :: 0 <= i < |items| ==> items[i].status != st
    ensures CountStatus(items, st) == |items| <==> forall i :: 0 <= i < |items| ==> items[i].status == st
  {
    if items != [] {
      var init := items[..|items| - 1];
      CountStatusExtremes(init, st);
      assert forall i :: 0 <= i < |init| ==> init[i] == items[i];
    }
  }

  /** The `counts` memo: one pass over the items, incrementing the counter of each item's
      status. */
  method TallyCounts(items: seq<StoredEnquiry>) returns (c: Counts)
    ensures c.newCount == CountStatus(items, New)
    ensures c.contacted == CountStatus(items, Contacted)
    ensures c.closed == CountStatus(items, Closed)
  {
    c := Counts(0, 0, 0);
    for i := 0 to |items|
      invariant c.newCount == CountStatus(items[..i], New)
      invariant c.contacted == CountStatus(items[..i], Contacted)
      invariant c.closed == CountStatus(items[..i], Closed)
    {
      assert items[..i + 1][..i] == items[..i];
      match items[i].status
      case New => c := c.(newCount := c.newCount + 1);
      case Contacted => c := c.(contacted := c.contacted + 1);
      case Closed => c := c.(closed := c.closed + 1);
    }
    assert items[..|items|] == items;
  }

  /** Every item is counted exactly once: the three tallies add up to the number of items. */
  lemma {:induction false} CountsCoverItems(items: seq<StoredEnquiry>)
    ensures CountStatus(items, New) + CountStatus(items, Contacted) + CountStatus(items, Closed) == |items|
  {
    if items != [] {
      CountsCoverItems(items[..|items| - 1]);
    }
  }

  /** Each tally is the size of the sub-list of items with that status. */
  lemma {:induction false} CountIsFilterSize(items: seq<StoredEnquiry>, st: Status)
    ensures CountStatus(items, st) == |Filter(items, Query(None, Some(StatusName(st)), None))|
  {
    if items != [] {
      CountStatusFront(items, st);
      CountIsFilterSize(items[1..], st);
      StatusQueryMatches(items[0], st);
    }
  }

  /** The tally can equally be taken from the front: the first item, then the rest. */
  lemma {:induction false} CountStatusFront(items: seq<StoredEnquiry>, st: Status)
    requires items != []
    ensures CountStatus(items, st) == (if items[0].status == st then 1 else 0) + CountStatus(items[1..], st)
    decreases |items|
  {
    if |items| > 1 {
      var init := items[..|items| - 1];
      CountStatusFront(init, st);
      assert init[1..] == items[1..][..|items[1..]| - 1];
      assert items[1..][|items[1..]| - 1] == items[|items| - 1];
    } else {
      assert items[..0] == [] && items[1..] == [];
    }
  }

  /** A status-only query matches exactly the items with that status. */
  lemma StatusQueryMatches(e: StoredEnquiry, st: Status)
    ensures Matches(e, Query(None, Some(StatusName(st)), None)) <==> e.status == st
  {
    NamesRoundTrip(General, QuickQuestion, st, GeneralQueue);
    NamesRoundTrip(General, QuickQuestion, e.status, GeneralQueue);
  }

  // ---------------------------------------------------------------------------------
  // updateStatus

  /** The PATCH response as the board reads it: the HTTP status was ok, the body's `ok`
      flag, and its `error` field when that is present and not null. */
  datatype PatchResponse = PatchResponse(httpOk: bool, jsonOk: bool, error: Option<string>)

  /** `prev.map(x => x.id === id ? { ...x, status } : x)`. */
  function WithStatus(items: seq<StoredEnquiry>, id: string, st: Status): (r: seq<StoredEnquiry>)
    ensures |r| == |items|
  {
    if items == [] then []
    else [if items[0].id == id then items[0].(status := st) else items[0]] + WithStatus(items[1..], id, st)
  }

  /** `updateStatus` after the request: on failure the alert text and the list unchanged,
      on success no alert and the list with the target's status replaced. */
  function ApplyPatch(items: seq<StoredEnquiry>, id: string, st: Status, res: PatchResponse)
    : (r: (seq<StoredEnquiry>, Option<string>))
    ensures !res.httpOk || !res.jsonOk ==> r.0 == items
    ensures !res.httpOk || !res.jsonOk ==>
      r.1 == Some(if res.error.Some? then res.error.value else "Failed to update")
    ensures res.httpOk && res.jsonOk ==> r == (WithStatus(items, id, st), None)
  {
    if !res.httpOk || !res.jsonOk then
      (items, Some(match res.error case Some(e) => e case None => "Failed to update"))
    else (WithStatus(items, id, st), None)
  }

  /** Exactly the items with the target id get the new status; every other field, every
      other item, the length and the order are unchanged. */
  lemma {:induction false} WithStatusPointwise(items: seq<StoredEnquiry>, id: string, st: Status)
    ensures |WithStatus(items, id, st)| == |items|
    ensures forall k :: 0 <= k < |items| ==>
      WithStatus(items, id, st)[k] == (if items[k].id == id then items[k].(status := st) else items[k])
  {
    if items != [] {
      WithStatusPointwise(items[1..], id, st);
      forall k | 0 <= k < |items|
        ensures WithStatus(items, id, st)[k] == (if items[k].id == id then items[k].(status := st) else items[k])
      {
        if k > 0 {
          assert WithStatus(items, id, st)[k] == WithStatus(items[1..], id, st)[k - 1];
          assert items[1..][k - 1] == items[k];
        }
      }
    }
  }

  /** Applying the same update twice is the same as applying it once. */
  lemma {:induction false} WithStatusIdempotent(items: seq<StoredEnquiry>, id: string, st: Status)
    ensures WithStatus(WithStatus(items, id, st), id, st) == WithStatus(items, id, st)
  {
    if items != [] {
      WithStatusIdempotent(items[1..], id, st);
      var once := WithStatus(items, id, st);
      assert once[1..] == WithStatus(items[1..], id, st);
    }
  }

  /** Updating an id that no item carries leaves the list exactly as it was. */
  lemma {:induction false} WithStatusAbsentId(items: seq<StoredEnquiry>, id: string, st: Status)
    requires forall k :: 0 <= k < |items| ==> items[k].id != id
    ensures WithStatus(items, id, st) == items
  {
    if items != [] {
      WithStatusAbsentId(items[1..], id, st);
    }
  }

  // ---------------------------------------------------------------------------------
  // the listing request's search parameters

  /** A `URLSearchParams` as an ordered list of name/value pairs. */
  class SearchParams {
    var entries: seq<(string, string)>

    /** No name occurs twice, which is what `set` keeps. */
    ghost predicate Valid()
      reads this
    {
      forall i, j :: 0 <= i < j < |entries| ==> entries[i].0 != entries[j].0
    }

    /** `new URLSearchParams()`. */
    constructor ()
      ensures entries == []
      ensures Valid()
    {
      entries := [];
    }

    /** `params.get(name)`: the value of the first pair with that name. */
    function Get(name: string): (r: Option<string>)
      reads this
      ensures r.Some? <==> exists i :: 0 <= i < |entries| && entries[i].0 == name
    {
      LookupIn(entries, name)
    }

    /** `params.set(name, value)`: overwrite the pair with that name in place, or append
        a new pair at the end. */
    method Set(name: string, value: string)
      requires Valid()
      modifies this
      ensures Valid()
      ensures Get(name) == Some(value)
      ensures forall n :: n != name ==> Get(n) == old(Get(n))
      ensures old(Get(name)).None? ==> entries == old(entries) + [(name, value)]
      ensures old(Get(name)).Some? ==> exists k :: 0 <= k < |old(entries)| && old(entries)[k].0 == name && entries == old(entries)[k := (name, value)]
      ensures |entries| == |old(entries)| + (if old(Get(name)).None? then 1 else 0)
    {
      var i := 0;
      while i < |entries| && entries[i].0 != name
        invariant 0 <= i <= |entries|
        invariant forall k :: 0 <= k < i ==> entries[k].0 != name
      {
        i := i + 1;
      }
      if i == |entries| {
        LookupInAppend(entries, name, value);
        entries := entries + [(name, value)];
      } else {
        LookupInUpdate(entries, i, value);
        entries := entries[i := (name, value)];
      }
    }
  }

  function LookupIn(es: seq<(string, string)>, name: string): (r: Option<string>)
    ensures r.Some? <==> exists i :: 0 <= i < |es| && es[i].0 == name
    ensures r.Some? ==> exists i :: 0 <= i < |es| && es[i] == (name, r.value)
  {
    if es == [] then None
    else if es[0].0 == name then Some(es[0].1)
    else
      var r := LookupIn(es[1..], name);
      assert forall i :: 0 < i < |es| ==> es[i] == es[1..][i - 1];
      assert r.Some? ==> exists i :: 0 <= i < |es[1..]| && es[1..][i] == (name, r.value);
      r
  }

  lemma {:induction false} LookupInAppend(es: seq<(string, string)>, name: string, value: string)
    requires forall k :: 0 <= k < |es| ==> es[k].0 != name
    ensures LookupIn(es + [(name, value)], name) == Some(value)
    ensures forall n :: n != name ==> LookupIn(es + [(name, value)], n) == LookupIn(es, n)
  {
    if es != [] {
      assert (es + [(name, value)])[1..] == es[1..] + [(name, value)];
      LookupInAppend(es[1..], name, value);
    }
  }

  lemma {:induction false} LookupInUpdate(es: seq<(string, string)>, i: nat, value: string)
    requires i < |es|
    requires forall k :: 0 <= k < i ==> es[k].0 != es[i].0
    ensures LookupIn(es[i := (es[i].0, value)], es[i].0) == Some(value)
    ensures forall n :: n != es[i].0 ==> LookupIn(es[i := (es[i].0, value)], n) == LookupIn(es, n)
  {
    if i > 0 {
      assert es[i := (es[i].0, value)][1..] == es[1..][i - 1 := (es[i].0, value)];
      LookupInUpdate(es[1..], i - 1, value);
    }
  }

  /** The entries the board sends for its two filter selections. */
  function FilterParam(selection: string): (r: Option<string>)
    ensures r.Some? <==> selection != "ALL"
    ensures r.Some? ==> r.value == selection
  {
    if selection == "ALL" then None else Some(selection)
  }

  /** The search parameters of the listing request: "ALL" leaves a filter out, any other
      selection sets `mode` or `status` to it; nothing else is set. */
  method FilterParams(mode: string, status: string) returns (p: SearchParams)
    ensures fresh(p) && p.Valid()
    ensures p.Get("mode") == FilterParam(mode)
    ensures p.Get("status") == FilterParam(status)
    ensures forall n :: n != "mode" && n != "status" ==> p.Get(n).None?
  {
    p := new SearchParams();
    if mode != "ALL" {
      p.Set("mode", mode);
    }
    if status != "ALL" {
      p.Set("status", status);
    }
  }

  /** The query the listing route reads from the board's request. */
  function BoardQuery(mode: string, status: string): (q: Query)
    ensures q.queue.None?
  {
    Query(FilterParam(mode), FilterParam(status), None)
  }

  /** Every selection the board's drop-downs offer yields a query the listing accepts, and
      the listing then holds exactly the stored enquiries of the chosen mode and status. */
  lemma BoardSelectionsAreListed(store: seq<StoredEnquiry>, mode: string, status: string)
    requires mode == "ALL" || ModeFromName(mode).Some?
    requires status == "ALL" || StatusFromName(status).Some?
    ensures List(store, BoardQuery(mode, status)).Success?
    ensures forall e :: e in List(store, BoardQuery(mode, status)).value <==>
      (e in store && (mode != "ALL" ==> ModeName(e.record.mode) == mode)
                  && (status != "ALL" ==> StatusName(e.status) == status))
  {
    var q := BoardQuery(mode, status);
    assert WellFormedQuery(q);
    forall e ensures Matches(e, q) <==>
      (mode != "ALL" ==> ModeName(e.record.mode) == mode) && (status != "ALL" ==> StatusName(e.status) == status)
    {
    }
  }
}
