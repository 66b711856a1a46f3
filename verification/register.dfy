/** The registration endpoint of `src/app/api/register/route.ts`: a fixed
    decision sequence over the row store. It validates the body, looks up the
    limit, counts the stored registrations, rejects a full event, and
    otherwise appends exactly one row. Requests are handled one after
    another. */
module Register {
  import opened Optional
  import opened Text
  import opened Sheets

  /** The endpoint's own limit table. The endpoint does not consult the
      event catalogue. */
  const RouteLimits: map<string, int> := map[
    "music-fest" := 5,
    "tech-conf" := 5,
    "food-carnival" := 5
  ]

  /** The default used when `DEFAULT_EVENT_LIMIT` is unset. */
  const RouteFallbackLimit: int := 5

  /** The endpoint's `getLimitFor`: the table value, otherwise the
      `DEFAULT_EVENT_LIMIT` environment value, otherwise 5. The lookup is by
      the exact id; it is not normalised. */
  function GetLimitFor(eventId: string, envDefault: Option<int>): (limit: int)
    ensures eventId in RouteLimits ==> limit == 5
    ensures eventId !in RouteLimits && envDefault.Some? ==> limit == envDefault.value
    ensures envDefault.None? ==> limit == RouteFallbackLimit
  {
    if eventId in RouteLimits then RouteLimits[eventId] else envDefault.GetOr(RouteFallbackLimit)
  }

  /** The JSON body after parsing; each field may be absent or `null`. */
  datatype Body = Body(
    eventId: Option<string>,
    name: Option<string>,
    email: Option<string>,
    phone: Option<string>)

  /** The environment the handler reads. */
  datatype Env = Env(spreadsheetId: Option<string>, defaultLimit: Option<int>)

  /** Which of the two store calls throws on this request. */
  datatype StoreFaults = StoreFaults(countFails: bool, appendFails: bool)

  /** The response: its status and the fields of its JSON body. */
  datatype Response =
    | Created(currentCount: int, limit: int)
    | Full(currentCount: int, limit: int)
    | MissingFields
    | ServerError
  {
    function Status(): int {
      match this
      case Created(_, _) => 201
      case Full(_, _) => 409
      case MissingFields => 400
      case ServerError => 500
    }

    /** The `ok` field of the response body. */
    predicate Ok() {
      Created?
    }
  }

  /** The table after the request, and the response sent. */
  datatype Outcome = Outcome(sheet: Sheet, response: Response)

  /** JavaScript truthiness of a string field: present and not empty. */
  predicate Present(field: Option<string>) {
    field.Some? && field.value != ""
  }

  /** The body passes validation: `eventId`, `name` and `email` are all
      present and non-empty. */
  predicate Valid(body: Body) {
    Present(body.eventId) && Present(body.name) && Present(body.email)
  }

  /** The registration a valid body asks for, stamped with `timestamp`; an
      absent `phone` is stored as the empty string. */
  function RegistrationOf(body: Body, timestamp: string): (reg: Registration)
    requires Valid(body)
    ensures reg.eventId == body.eventId.value && reg.name == body.name.value
    ensures reg.email == body.email.value && reg.timestamp == timestamp
    ensures reg.phone == (if body.phone.Some? then body.phone.value else "")
  {
    Registration(timestamp, body.eventId.value, body.name.value, body.email.value,
                 body.phone.GetOr(""))
  }

  /** `POST`. `body` is `None` when the request body does not parse as JSON
      or parses to `null`, which makes the handler throw when it destructures
      it; every thrown error becomes a 500. Any other JSON value that is not
      an object has no fields and arrives as `Some(Body(None, None, None, None))`,
      which fails validation with a 400. */
  function Post(sheet: Sheet, body: Option<Body>, env: Env, faults: StoreFaults,
                timestamp: string): (out: Outcome)
    // 400 exactly for a parsed body missing a required field; nothing is read or written
    ensures out.response.MissingFields? <==> body.Some? && !Valid(body.value)
    // the store changes exactly when the response is a success
    ensures out.response.Created? <==> out.sheet != sheet
    ensures !out.response.Created? ==> out.sheet == sheet
    // a success needs the spreadsheet id and both store calls to go through
    ensures out.response.Created? ==>
      body.Some? && Valid(body.value) && Present(env.spreadsheetId)
      && !faults.countFails && !faults.appendFails
    // 409: the stored count for the id has reached the limit for the id
    ensures out.response.Full? ==>
      body.Some? && Valid(body.value)
      && out.response.currentCount == CountRegistrationsByEvent(sheet, body.value.eventId.value)
      && out.response.limit == GetLimitFor(body.value.eventId.value, env.defaultLimit)
      && out.response.currentCount >= out.response.limit
    // 201: the count was below the limit, one row was appended, count + 1 is reported
    ensures out.response.Created? ==>
      var id := body.value.eventId.value;
      && out.sheet == AppendRegistrationRow(sheet, RegistrationOf(body.value, timestamp))
      && out.response.limit == GetLimitFor(id, env.defaultLimit)
      && out.response.currentCount == CountRegistrationsByEvent(sheet, id) + 1
      && out.response.currentCount <= out.response.limit
    // 500 exactly for an unparsable body, a missing spreadsheet id, a failing
    // count, or a failing append on an event that still has room
    ensures out.response.ServerError? <==>
      || body.None?
      || (Valid(body.value)
          && (|| !Present(env.spreadsheetId)
              || faults.countFails
              || (CountRegistrationsByEvent(sheet, body.value.eventId.value)
                    < GetLimitFor(body.value.eventId.value, env.defaultLimit)
                  && faults.appendFails)))
    // once the count is known, 409 exactly when it has reached the limit,
    // whether or not the append would fail
    ensures body.Some? && Valid(body.value) && Present(env.spreadsheetId) && !faults.countFails ==>
      (out.response.Full? <==>
         CountRegistrationsByEvent(sheet, body.value.eventId.value)
           >= GetLimitFor(body.value.eventId.value, env.defaultLimit))
    // a valid request below the limit with working store calls is accepted, on any table
    ensures body.Some? && Valid(body.value) && Present(env.spreadsheetId)
      && !faults.countFails && !faults.appendFails
      && CountRegistrationsByEvent(sheet, body.value.eventId.value)
           < GetLimitFor(body.value.eventId.value, env.defaultLimit)
      ==> out.response.Created?
  {
    if body.None? then
      Outcome(sheet, ServerError)
    else if !Valid(body.value) then
      Outcome(sheet, MissingFields)
    else if !Present(env.spreadsheetId) then
      Outcome(sheet, ServerError)
    else
      var b := body.value;
      var limit := GetLimitFor(b.eventId.value, env.defaultLimit);
      if faults.countFails then
        Outcome(sheet, ServerError)
      else
        var currentCount := CountRegistrationsByEvent(sheet, b.eventId.value);
        if currentCount >= limit then
          Outcome(sheet, Full(currentCount, limit))
        else if faults.appendFails then
          Outcome(sheet, ServerError)
        else
          var sheet' := AppendRegistrationRow(sheet, RegistrationOf(b, timestamp));
          assert |sheet'| != |sheet|;
          Outcome(sheet', Created(currentCount + 1, limit))
  }

  /** Validation comes first: a body missing a required field gets 400
      whatever the environment and the store would do, so neither the count
      nor the append is reached. Likewise a missing spreadsheet id gets 500
      before the store is used. */
  lemma ValidationPrecedesStore(sheet: Sheet, body: Body, env: Env, faults: StoreFaults,
                                timestamp: string)
    ensures !Valid(body) ==>
      Post(sheet, Some(body), env, faults, timestamp) == Outcome(sheet, MissingFields)
    ensures Valid(body) && !Present(env.spreadsheetId) ==>
      Post(sheet, Some(body), env, faults, timestamp) == Outcome(sheet, ServerError)
  {
  }

  /** The status code and `ok` flag agree with the kind of response: only a
      201 reports `ok: true`, and a 500 never reports success. */
  lemma StatusAndOk(r: Response)
    ensures r.Ok() <==> r.Status() == 201
    ensures r.Status() == 500 <==> r.ServerError?
    ensures r.Status() == 400 <==> r.MissingFields?
    ensures r.Status() == 409 <==> r.Full?
  {
  }

  /** When the table has its header row, the count reported with a 201 is
      the count now stored for the event id. */
  lemma {:induction false} ReportedCountIsStoredCount(sheet: Sheet, body: Option<Body>, env: Env,
                                   faults: StoreFaults, timestamp: string)
    requires |sheet| > 0
    ensures var out := Post(sheet, body, env, faults, timestamp);
      out.response.Created? ==>
        out.response.currentCount == CountRegistrationsByEvent(out.sheet, body.value.eventId.value)
  {
    var out := Post(sheet, body, env, faults, timestamp);
    if out.response.Created? {
      var reg := RegistrationOf(body.value, timestamp);
      AppendRegistrationCount(sheet, reg, reg.eventId);
    }
  }

  /** On an empty table the accepted registration becomes the header row:
      the response reports a count of 1 while the stored count stays 0. */
  lemma FirstRegistrationIsNotCounted(body: Option<Body>, env: Env, faults: StoreFaults,
                                      timestamp: string)
    ensures var out := Post([], body, env, faults, timestamp);
      out.response.Created? ==>
        && out.response.currentCount == 1
        && CountRegistrationsByEvent(out.sheet, body.value.eventId.value) == 0
  {
    var out := Post([], body, env, faults, timestamp);
    if out.response.Created? {
      FirstRowBecomesHeader(RegistrationOf(body.value, timestamp), body.value.eventId.value);
    }
  }

  /** A request can only add to the count of `e` when its own limit is at
      most `bound`: true when its id has a different normal form from `e`,
      or when the limit looked up for its id is no larger than `bound`. */
  predicate LimitWithin(body: Option<Body>, env: Env, e: string, bound: int) {
    body.Some? && Present(body.value.eventId)
      && Normalise(body.value.eventId.value) == Normalise(e)
    ==> GetLimitFor(body.value.eventId.value, env.defaultLimit) <= bound
  }

  /** The capacity gate keeps a count within its bound: for a request whose
      limit for `e` is within `bound`, a count of `e` at or under `bound`
      stays at or under it, and a count already above `bound` is left as it
      is. */
  lemma PostPreservesCapacity(sheet: Sheet, body: Option<Body>, env: Env,
                              faults: StoreFaults, timestamp: string, e: string, bound: int)
    requires LimitWithin(body, env, e, bound)
    ensures var after := CountRegistrationsByEvent(Post(sheet, body, env, faults, timestamp).sheet, e);
      && (CountRegistrationsByEvent(sheet, e) <= bound ==> after <= bound)
      && (CountRegistrationsByEvent(sheet, e) > bound ==> after == CountRegistrationsByEvent(sheet, e))
  {
    var out := Post(sheet, body, env, faults, timestamp);
    if out.response.Created? {
      var reg := RegistrationOf(body.value, timestamp);
      if |sheet| == 0 {
        FirstRowBecomesHeader(reg, e);
      } else {
        AppendRegistrationCount(sheet, reg, e);
        if Normalise(reg.eventId) == Normalise(e) {
          CountDependsOnlyOnNormalForm(sheet, reg.eventId, e);
        }
      }
    }
  }

  /** One request handled by the endpoint, with the store's behaviour and
      the clock reading for that request. */
  datatype Request = Request(body: Option<Body>, faults: StoreFaults, timestamp: string)

  /** The table after handling `requests` one after another. */
  function Run(sheet: Sheet, env: Env, requests: seq<Request>): (final: Sheet)
    ensures |sheet| <= |final| <= |sheet| + |requests|
    ensures final[..|sheet|] == sheet
    decreases |requests|
  {
    if |requests| == 0 then sheet
    else
      var r := requests[0];
      var next := Post(sheet, r.body, env, r.faults, r.timestamp).sheet;
      var final := Run(next, env, requests[1..]);
      assert final[..|sheet|] == final[..|next|][..|sheet|];
      final
  }

  /** Handled one at a time, requests whose limits for `e` are within
      `bound` keep a count of `e` at or under `bound` at or under it, and
      leave a count already above `bound` unchanged. */
  lemma {:induction false} RunPreservesCapacity(sheet: Sheet, env: Env, requests: seq<Request>,
                                                e: string, bound: int)
    requires forall i :: 0 <= i < |requests| ==> LimitWithin(requests[i].body, env, e, bound)
    ensures var after := CountRegistrationsByEvent(Run(sheet, env, requests), e);
      && (CountRegistrationsByEvent(sheet, e) <= bound ==> after <= bound)
      && (CountRegistrationsByEvent(sheet, e) > bound ==> after == CountRegistrationsByEvent(sheet, e))
    decreases |requests|
  {
    if |requests| > 0 {
      var r := requests[0];
      PostPreservesCapacity(sheet, r.body, env, r.faults, r.timestamp, e, bound);
      var next := Post(sheet, r.body, env, r.faults, r.timestamp).sheet;
      assert forall i :: 0 <= i < |requests| - 1 ==> requests[1..][i] == requests[i + 1];
      RunPreservesCapacity(next, env, requests[1..], e, bound);
    }
  }

  /** With `DEFAULT_EVENT_LIMIT` unset every id has limit 5, so whatever
      sequence of requests arrives, an event with at most 5 registrations
      keeps at most 5, and one with more gains none. */
  lemma UnsetDefaultCapsEveryEvent(sheet: Sheet, spreadsheetId: Option<string>,
                                   requests: seq<Request>, e: string)
    ensures var after := CountRegistrationsByEvent(Run(sheet, Env(spreadsheetId, None), requests), e);
      && (CountRegistrationsByEvent(sheet, e) <= 5 ==> after <= 5)
      && (CountRegistrationsByEvent(sheet, e) > 5 ==> after == CountRegistrationsByEvent(sheet, e))
  {
    RunPreservesCapacity(sheet, Env(spreadsheetId, None), requests, e, 5);
  }

  /** The ids of the example below: a table key and another spelling of it. */
  const MusicFest: string := "music-fest"
  const MusicFestVariant: string := "Music-Fest"

  /** "music-fest" is its own normal form. */
  lemma LowerCaseIdIsNormal()
    ensures Normalise(MusicFest) == MusicFest
  {
    assert Trimmed(MusicFest);
    assert Lower(MusicFest) == MusicFest;
  }

  lemma MixedCaseIdIsTrimmed()
    ensures Trim(MusicFestVariant) == MusicFestVariant
  {
    assert !IsSpace(MusicFestVariant[0]) && !IsSpace(MusicFestVariant[9]);
  }

  lemma MixedCaseIdLowered()
    ensures Lower(MusicFestVariant) == MusicFest
  {
    var l := Lower(MusicFestVariant);
    assert l[0] == 'm' && l[6] == 'f';
    assert forall i :: 0 <= i < 10 && i != 0 && i != 6 ==> l[i] == MusicFestVariant[i];
  }

  /** "Music-Fest" normalises to "music-fest". */
  lemma MixedCaseIdNormalises()
    ensures Normalise(MusicFestVariant) == MusicFest
  {
    MixedCaseIdIsTrimmed();
    MixedCaseIdLowered();
  }

  /** Only the exact key "music-fest" is in the endpoint's table. */
  lemma VariantNotInTable()
    ensures MusicFest in RouteLimits && MusicFestVariant !in RouteLimits
  {
    assert MusicFestVariant[0] != MusicFest[0];
  }

  /** A request is checked against the limit of its own spelling of the id
      but adds to the count of every id with the same normal form: when that
      limit is above the stored count of `e`, the request is accepted and the
      count of `e` goes up by one; otherwise it is refused as full. Either
      way the limit of `e` itself plays no part. */
  lemma GateUsesRequestSpelling(sheet: Sheet, body: Body, env: Env, timestamp: string, e: string)
    requires |sheet| > 0 && Valid(body) && Present(env.spreadsheetId)
    requires Normalise(body.eventId.value) == Normalise(e)
    ensures var out := Post(sheet, Some(body), env, StoreFaults(false, false), timestamp);
      var limit := GetLimitFor(body.eventId.value, env.defaultLimit);
      && (CountRegistrationsByEvent(sheet, e) < limit ==>
            out.response.Created?
            && CountRegistrationsByEvent(out.sheet, e) == CountRegistrationsByEvent(sheet, e) + 1)
      && (CountRegistrationsByEvent(sheet, e) >= limit ==> out.response.Full?)
  {
    var id := body.eventId.value;
    var limit := GetLimitFor(id, env.defaultLimit);
    CountDependsOnlyOnNormalForm(sheet, id, e);
    var out := Post(sheet, Some(body), env, StoreFaults(false, false), timestamp);
    if CountRegistrationsByEvent(sheet, id) < limit {
      var reg := RegistrationOf(body, timestamp);
      assert out.sheet == AppendRegistrationRow(sheet, reg);
      AppendRegistrationCount(sheet, reg, e);
    } else {
      assert out.response == Full(CountRegistrationsByEvent(sheet, id), limit);
    }
  }

  /** With `DEFAULT_EVENT_LIMIT` set to 100, a table holding five
      "music-fest" registrations (its limit) accepts a sixth when the request
      spells the id "Music-Fest": the exact-id lookup misses the table and
      yields 100, while the count is by normal form. */
  lemma SpellingVariantPassesExactLimit(sheet: Sheet, body: Body, env: Env, timestamp: string)
    requires |sheet| > 0 && CountRegistrationsByEvent(sheet, MusicFest) == 5
    requires Valid(body) && body.eventId.value == MusicFestVariant
    requires Present(env.spreadsheetId) && env.defaultLimit == Some(100)
    ensures var out := Post(sheet, Some(body), env, StoreFaults(false, false), timestamp);
      && GetLimitFor(MusicFest, env.defaultLimit) == 5
      && out.response.Created?
      && CountRegistrationsByEvent(out.sheet, MusicFest) == 6
  {
    LowerCaseIdIsNormal();
    MixedCaseIdNormalises();
    VariantNotInTable();
    GateUsesRequestSpelling(sheet, body, env, timestamp, MusicFest);
  }
}
