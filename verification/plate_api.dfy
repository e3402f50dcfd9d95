/** The plate lookup providers: how one HTTP exchange is classified into a
    lookup outcome (the legacy Placamaster call, the `PlacaAPIClient` and the
    two-step `AnyCarAPIClient`), and the clients' retry loop for rate limits.

    HTTP is an oracle: a reply is a status code plus the decoded JSON object
    (`None` when the body is not a JSON object, i.e. when `response.json()`
    or the following `.get` would raise), or a transport failure. */
module PlateApi {
  import opened Wrappers
  import opened Text
  import Plates

  /** A decoded JSON value. */
  datatype Json = JNull | JBool(b: bool) | JNum(n: int) | JStr(s: string) | JArr(items: seq<Json>) | JObj(fields: map<string, Json>)

  /** Python truthiness of a decoded JSON value. */
  predicate Truthy(v: Json) {
    match v
    case JNull => false
    case JBool(b) => b
    case JNum(n) => n != 0
    case JStr(s) => s != ""
    case JArr(items) => |items| > 0
    case JObj(fields) => |fields| > 0
  }

  /** `obj.get(key)`: the value, or `null` when absent. */
  function Get(obj: map<string, Json>, key: string): (v: Json)
    ensures key in obj ==> v == obj[key]
    ensures key !in obj ==> v == JNull
  {
    if key in obj then obj[key] else JNull
  }

  /** One HTTP exchange as the client sees it. */
  datatype Http = Reply(code: int, body: Option<map<string, Json>>) | TransportError

  /** What a lookup yields: the provider's vehicle record, a permanent
      rejection with its reason, a rate-limit marker, or nothing (retryable). */
  datatype Lookup = Found(record: map<string, Json>) | Rejected(reason: Json) | RateLimited | NoData

  /** How the callers read what a lookup returns (`vehicle_data.get("status")`):
      a record whose own `status` is "invalid" reads as a rejection with its
      own `reason` (default "UNKNOWN"), one whose `status` is 429 as a rate
      limit; every other outcome reads as itself. */
  function AsSeen(l: Lookup): (r: Lookup)
    ensures !l.Found? ==> r == l
    ensures l.Found? && Get(l.record, "status") == JStr("invalid") ==>
              r == Rejected(if "reason" in l.record then l.record["reason"] else JStr("UNKNOWN"))
    ensures l.Found? && Get(l.record, "status") == JNum(429) ==> r == RateLimited
    ensures r.Found? ==> r == l && Get(r.record, "status") != JStr("invalid") && Get(r.record, "status") != JNum(429)
  {
    match l
    case Found(rec) =>
      if Get(rec, "status") == JStr("invalid") then Rejected(if "reason" in rec then rec["reason"] else JStr("UNKNOWN"))
      else if Get(rec, "status") == JNum(429) then RateLimited
      else l
    case _ => l
  }

  const INVALID_PLATE_FORMAT: string := "INVALID_PLATE_FORMAT"
  const MAX_RETRIES: nat := 5
  const RETRY_BACKOFF: nat := 15

  function Reason(s: string): Lookup { Rejected(JStr(s)) }

  function ServerError(code: int): string { IntToString(code) + "_SERVER_ERROR" }

  /** A `success` body whose `data` object names a make or a model is the
      vehicle; one that names neither is `EMPTY_DATA`; a `data` that is not
      an object makes `.get` raise, which the caller turns into nothing. */
  function ClassifySuccessBody(b: map<string, Json>): (r: Lookup)
    ensures r.Found? ==> Truthy(Get(r.record, "marca")) || Truthy(Get(r.record, "modelo"))
    ensures r.Found? ==> Get(b, "data") == JObj(r.record)
    ensures r != RateLimited
  {
    if Truthy(Get(b, "success")) && Truthy(Get(b, "data")) then
      match Get(b, "data")
      case JObj(d) =>
        if Truthy(Get(d, "marca")) || Truthy(Get(d, "modelo")) then Found(d) else Reason("EMPTY_DATA")
      case _ => NoData
    else NoData
  }

  /** Legacy `query_plate_api` after validation: 404, 403 and 5xx are
      permanent, 429 is a rate limit, 200 is decoded, anything else
      (400 included) is nothing. */
  function LegacyClassify(h: Http): (r: Lookup)
    ensures h.Reply? && h.code == 404 ==> r == Reason("404_NOT_FOUND")
    ensures h.Reply? && h.code == 403 ==> r == Reason("403_FORBIDDEN")
    ensures h.Reply? && h.code >= 500 ==> r == Reason(ServerError(h.code))
    ensures h.Reply? && h.code == 429 ==> r == RateLimited
    ensures r.Found? ==> h.Reply? && h.code == 200
    ensures h.TransportError? ==> r == NoData
  {
    match h
    case TransportError => NoData
    case Reply(code, body) =>
      if code == 404 then Reason("404_NOT_FOUND")
      else if code == 403 then Reason("403_FORBIDDEN")
      else if code >= 500 then Reason(ServerError(code))
      else if code == 200 then (if body.Some? then ClassifySuccessBody(body.value) else NoData)
      else if code == 429 then RateLimited
      else NoData
  }

  /** Legacy `query_plate_api`: an unparseable plate is rejected before any
      request; otherwise the normalised plate is posted once. */
  function LegacyQuery(plate: string, post: string -> Http): (r: Lookup)
    ensures Plates.Normalize(plate).None? ==> r == Reason(INVALID_PLATE_FORMAT)
    ensures Plates.Normalize(plate).Some? ==> r == LegacyClassify(post(Plates.Normalize(plate).value))
  {
    match Plates.Normalize(plate)
    case None => Reason(INVALID_PLATE_FORMAT)
    case Some(p) => LegacyClassify(post(p))
  }

  /** `PlacaAPIClient._query_once`: like the legacy call, except that 400 is
      permanent with the body's `error` (default `400_INVALID_DATA`). */
  function PlacaClassify(h: Http): (r: Lookup)
    ensures h.Reply? && h.code == 400 && h.body.Some? ==>
              r == Rejected(if "error" in h.body.value then h.body.value["error"] else JStr("400_INVALID_DATA"))
    ensures h.Reply? && h.code == 400 && h.body.None? ==> r == NoData
  {
    match h
    case TransportError => NoData
    case Reply(code, body) =>
      if code == 400 then
        (if body.Some? then Rejected(if "error" in body.value then body.value["error"] else JStr("400_INVALID_DATA")) else NoData)
      else if code == 404 then Reason("404_NOT_FOUND")
      else if code == 403 then Reason("403_FORBIDDEN")
      else if code >= 500 then Reason(ServerError(code))
      else if code == 200 then (if body.Some? then ClassifySuccessBody(body.value) else NoData)
      else if code == 429 then RateLimited
      else NoData
  }

  /** The legacy call and the Placamaster client agree on every exchange
      except a 400, which the legacy call retries and the client rejects. */
  lemma LegacyAndPlacaAgreeExceptOn400(h: Http)
    ensures !(h.Reply? && h.code == 400) ==> LegacyClassify(h) == PlacaClassify(h)
    ensures h.Reply? && h.code == 400 && h.body.Some? ==> LegacyClassify(h) == NoData && PlacaClassify(h).Rejected?
  {
  }

  /** `AnyCarAPIClient._query_once`: POST the hyphenated plate for an id,
      then GET the record by that id. The GET oracle receives the id. */
  function AnyCarQueryOnce(plate: string, post: string -> Http, get: Json -> Http): (r: Lookup)
    ensures var h := post(Plates.WithHyphen(plate));
            h.Reply? && h.code == 400 ==> r == Reason("400_INVALID_DATA")
    ensures var h := post(Plates.WithHyphen(plate));
            (h.Reply? && h.code == 200 && h.body.Some?
             && !(Truthy(Get(h.body.value, "status")) && Truthy(Get(h.body.value, "id")))) ==> r == Reason("NO_ID_RETURNED")
    ensures r.Found? ==> r.record.Keys == {"marca", "modelo", "ano", "anoModelo", "cor"}
  {
    match post(Plates.WithHyphen(plate))
    case TransportError => NoData
    case Reply(code, body) =>
      if code == 400 then Reason("400_INVALID_DATA")
      else if code == 404 then Reason("404_NOT_FOUND")
      else if code == 403 then Reason("403_FORBIDDEN")
      else if code >= 500 then Reason(ServerError(code))
      else if code == 429 then RateLimited
      else if code != 200 then NoData
      else if body.None? then NoData
      else if !Truthy(Get(body.value, "status")) || !Truthy(Get(body.value, "id")) then Reason("NO_ID_RETURNED")
      else AnyCarClassifyGet(get(body.value["id"]))
  }

  /** The GET half of the AnyCar exchange. */
  function AnyCarClassifyGet(h: Http): (r: Lookup)
    ensures h.Reply? && h.code == 429 ==> r == RateLimited
    ensures h.Reply? && h.code >= 500 ==> r == Reason("GET_" + ServerError(h.code))
    ensures r.Found? ==> h.Reply? && h.code == 200 && r.record.Keys == {"marca", "modelo", "ano", "anoModelo", "cor"}
  {
    match h
    case TransportError => NoData
    case Reply(code, body) =>
      if code == 200 then
        if body.None? then NoData
        else if Truthy(Get(body.value, "status")) && Truthy(Get(body.value, "data")) then
          match body.value["data"]
          case JObj(d) =>
            if !Truthy(Get(d, "encontrado")) then Reason("NOT_FOUND_IN_DATABASE")
            else Found(map["marca" := Get(d, "marca"), "modelo" := Get(d, "modelo"), "ano" := Get(d, "anoFabricacao"),
                           "anoModelo" := Get(d, "anoModelo"), "cor" := Get(d, "cor")])
          case _ => NoData
        else Reason("EMPTY_DATA")
      else if code == 429 then RateLimited
      else if code >= 500 then Reason("GET_" + ServerError(code))
      else NoData
  }

  /** The AnyCar record renames the provider's year fields and keeps the
      make, model and colour as given. */
  lemma AnyCarRecordFields(d: map<string, Json>)
    requires Truthy(Get(d, "encontrado"))
    ensures var r := AnyCarClassifyGet(Reply(200, Some(map["status" := JBool(true), "data" := JObj(d)])));
            r.Found? && r.record["ano"] == Get(d, "anoFabricacao") && r.record["anoModelo"] == Get(d, "anoModelo")
            && r.record["marca"] == Get(d, "marca") && r.record["cor"] == Get(d, "cor")
  {
    assert Truthy(JObj(d)) by { assert "encontrado" in d; }
  }

  /** The sleep before retry `attempt` (1-based): 15 + 5 * attempt seconds. */
  function Backoff(attempt: nat): nat { RETRY_BACKOFF + attempt * 5 }

  /** The answer of the retry loop from attempt `i` on: the first answer
      that does not read as a rate limit, as it was returned, or nothing
      once five attempts are spent. */
  function RetryAnswer(once: nat -> Lookup, i: nat): (r: Lookup)
    ensures AsSeen(r) != RateLimited
    decreases MAX_RETRIES - i
  {
    if i >= MAX_RETRIES then NoData
    else if AsSeen(once(i)) != RateLimited then once(i)
    else RetryAnswer(once, i + 1)
  }

  /** The clients' `query_plate` retry loop: call `once(i)` for attempt `i`
      until its `status` is not 429 (a rate limit, or a found record that
      carries that status itself), at most five times, sleeping 20, 25, 30,
      35 s between attempts. Returns the outcome as the call gave it, the
      number of calls and the sleeps taken; five rate limits in a row end in
      nothing. */
  method RetryRateLimited(once: nat -> Lookup) returns (r: Lookup, calls: nat, sleeps: seq<nat>)
    ensures 1 <= calls <= MAX_RETRIES
    ensures AsSeen(r) != RateLimited
    ensures forall i :: 0 <= i < calls - 1 ==> AsSeen(once(i)) == RateLimited
    ensures AsSeen(once(calls - 1)) != RateLimited ==> r == once(calls - 1)
    ensures AsSeen(once(calls - 1)) == RateLimited ==> calls == MAX_RETRIES && r == NoData
    ensures |sleeps| == calls - 1
    ensures forall i :: 0 <= i < |sleeps| ==> sleeps[i] == Backoff(i + 1)
    ensures r == RetryAnswer(once, 0)
  {
    var attempts: nat := 0;
    sleeps := [];
    while attempts < MAX_RETRIES
      invariant attempts < MAX_RETRIES
      invariant forall i :: 0 <= i < attempts ==> AsSeen(once(i)) == RateLimited
      invariant |sleeps| == attempts
      invariant forall i :: 0 <= i < |sleeps| ==> sleeps[i] == Backoff(i + 1)
      invariant RetryAnswer(once, 0) == RetryAnswer(once, attempts)
      decreases MAX_RETRIES - attempts
    {
      var result := once(attempts);
      if AsSeen(result) != RateLimited {
        return result, attempts + 1, sleeps;
      }
      attempts := attempts + 1;
      if attempts == MAX_RETRIES {
        return NoData, attempts, sleeps;
      }
      sleeps := sleeps + [Backoff(attempts)];
    }
    // The fifth rate limit returns inside the loop.
    assert false;
  }

  /** The clients' `query_plate`: a plate that does not normalise is
      rejected without any request; otherwise the retry loop runs. */
  method QueryWithRetry(plate: string, once: nat -> Lookup) returns (r: Lookup, calls: nat, sleeps: seq<nat>)
    ensures Plates.Normalize(plate).None? ==> r == Reason(INVALID_PLATE_FORMAT) && calls == 0 && sleeps == []
    ensures Plates.Normalize(plate).Some? ==> 1 <= calls <= MAX_RETRIES && |sleeps| == calls - 1
    ensures Plates.Normalize(plate).Some? ==> forall i :: 0 <= i < calls - 1 ==> AsSeen(once(i)) == RateLimited
    ensures Plates.Normalize(plate).Some? && AsSeen(once(calls - 1)) != RateLimited ==> r == once(calls - 1)
    ensures Plates.Normalize(plate).Some? && AsSeen(once(calls - 1)) == RateLimited ==> calls == MAX_RETRIES && r == NoData
    ensures Plates.Normalize(plate).Some? ==> forall i :: 0 <= i < |sleeps| ==> sleeps[i] == Backoff(i + 1)
    ensures Plates.Normalize(plate).Some? ==> r == RetryAnswer(once, 0)
    ensures AsSeen(r) != RateLimited
  {
    if Plates.Normalize(plate).None? {
      return Reason(INVALID_PLATE_FORMAT), 0, [];
    }
    r, calls, sleeps := RetryRateLimited(once);
  }

  /** Five rate limits in a row give nothing after exactly five calls and
      four sleeps of 20, 25, 30 and 35 s, whether they come as the 429
      marker or as a record whose own `status` is 429. */
  method FiveRateLimits(plate: string) returns (r: Lookup, calls: nat, sleeps: seq<nat>, r': Lookup, calls': nat)
    requires Plates.Normalize(plate).Some?
    ensures r == NoData && calls == MAX_RETRIES && sleeps == [20, 25, 30, 35]
    ensures r' == NoData && calls' == MAX_RETRIES
  {
    r, calls, sleeps := QueryWithRetry(plate, (i: nat) => RateLimited);
    var marked := Found(map["status" := JNum(429)]);
    assert AsSeen(marked) == RateLimited;
    var sleeps';
    r', calls', sleeps' := QueryWithRetry(plate, (i: nat) => marked);
  }

  /** The retry budget: at most 20 + 25 + 30 + 35 = 110 s of sleeping. */
  function SumSleeps(s: seq<nat>): nat {
    if |s| == 0 then 0 else s[0] + SumSleeps(s[1..])
  }

  lemma RetrySleepBound(s: seq<nat>)
    requires |s| <= MAX_RETRIES - 1
    requires forall i :: 0 <= i < |s| ==> s[i] == Backoff(i + 1)
    ensures SumSleeps(s) <= 110
  {
    ShiftedSleepBound(s, 1);
  }

  /** The sum of the backoffs of attempts 1 .. k-1. */
  function SleepsBefore(k: nat): nat {
    if k <= 1 then 0 else Backoff(k - 1) + SleepsBefore(k - 1)
  }

  lemma {:induction false} ShiftedSleepBound(s: seq<nat>, k: nat)
    requires 1 <= k && |s| + k <= MAX_RETRIES
    requires forall i :: 0 <= i < |s| ==> s[i] == Backoff(i + k)
    ensures SumSleeps(s) + SleepsBefore(k) <= 110
    decreases |s|
  {
    if |s| > 0 {
      var t := s[1..];
      assert forall i :: 0 <= i < |t| ==> t[i] == Backoff(i + k + 1);
      ShiftedSleepBound(t, k + 1);
    } else {
      assert SleepsBefore(5) == 110;
      if k < 5 { assert SleepsBefore(k) <= SleepsBefore(5) by { SleepsMonotone(k, 5); } }
    }
  }

  lemma {:induction false} SleepsMonotone(j: nat, k: nat)
    requires j <= k
    ensures SleepsBefore(j) <= SleepsBefore(k)
    decreases k
  {
    if j < k { SleepsMonotone(j, k - 1); }
  }
}
