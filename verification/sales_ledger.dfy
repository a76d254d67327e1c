/**
 * The `sales_events` table and the `POST /api/webhooks/hotmart` handler
 * that writes to it. The table is a map keyed by its unique constraint
 * `(source, external_id)`, owned by a class whose `Upsert` method is the
 * `INSERT ... ON CONFLICT (source, external_id) DO UPDATE` statement.
 */
module SalesLedger {
  import opened Wrappers
  import opened JsValue
  import opened HotmartSignature
  import opened HotmartPayload

  /** An abstract instant, as the database's `NOW()` and parsed dates give it. */
  type Time = int

  /** The unique key `(source, external_id)`. */
  type Key = (string, Value)

  const HotmartSource := "hotmart"

  /** One stored row, apart from its key. */
  datatype Row = Row(
    status: Value,
    amount: Option<real>,
    currency: Value,
    occurredAt: Option<Time>,
    rawPayload: Value,
    receivedAt: Time,
    updatedAt: Time)

  /** The seven parameters of the insert-or-update statement. */
  datatype SalesEvent = SalesEvent(
    source: string,
    externalId: Value,
    status: Value,
    amount: Option<real>,
    currency: Value,
    occurredAt: Option<Time>,
    rawPayload: Value)

  function KeyOf(e: SalesEvent): Key {
    (e.source, e.externalId)
  }

  /**
   * The table after the statement ran at time `now`: a row for the event's
   * key carrying the event's columns and `updated_at = now`; `received_at`
   * is `now` for a new row and kept on conflict; every other row is untouched.
   */
  function Upserted(rows: map<Key, Row>, e: SalesEvent, now: Time): (r: map<Key, Row>)
    ensures r.Keys == rows.Keys + {KeyOf(e)}
    ensures forall k :: k in rows && k != KeyOf(e) ==> r[k] == rows[k]
    ensures r[KeyOf(e)].status == e.status && r[KeyOf(e)].amount == e.amount &&
            r[KeyOf(e)].currency == e.currency && r[KeyOf(e)].occurredAt == e.occurredAt &&
            r[KeyOf(e)].rawPayload == e.rawPayload && r[KeyOf(e)].updatedAt == now
    ensures r[KeyOf(e)].receivedAt == if KeyOf(e) in rows then rows[KeyOf(e)].receivedAt else now
  {
    var receivedAt := if KeyOf(e) in rows then rows[KeyOf(e)].receivedAt else now;
    rows[KeyOf(e) := Row(e.status, e.amount, e.currency, e.occurredAt, e.rawPayload, receivedAt, now)]
  }

  /** Delivering the same event again changes nothing but `updated_at`. */
  lemma RedeliveryOnlyRefreshesUpdatedAt(rows: map<Key, Row>, e: SalesEvent, t1: Time, t2: Time)
    ensures var once := Upserted(rows, e, t1);
            Upserted(once, e, t2) == once[KeyOf(e) := once[KeyOf(e)].(updatedAt := t2)]
  {
    var once := Upserted(rows, e, t1);
    var twice := Upserted(once, e, t2);
    assert twice.Keys == once.Keys;
    assert twice[KeyOf(e)] == once[KeyOf(e)].(updatedAt := t2);
  }

  /**
   * Two deliveries of one transaction leave one row holding the later
   * delivery's columns and the first insert's `received_at`.
   */
  lemma LaterDeliveryWins(rows: map<Key, Row>, e1: SalesEvent, e2: SalesEvent, t1: Time, t2: Time)
    requires KeyOf(e1) == KeyOf(e2)
    requires KeyOf(e1) !in rows
    ensures var r := Upserted(Upserted(rows, e1, t1), e2, t2);
            r.Keys == rows.Keys + {KeyOf(e1)} &&
            r[KeyOf(e1)] == Row(e2.status, e2.amount, e2.currency, e2.occurredAt, e2.rawPayload, t1, t2)
  {
  }

  /** The `sales_events` table. */
  class SalesEvents {
    var rows: map<Key, Row>

    constructor ()
      ensures rows == map[]
    {
      rows := map[];
    }

    /** `INSERT ... ON CONFLICT (source, external_id) DO UPDATE SET ...` at time `now`. */
    method Upsert(e: SalesEvent, now: Time)
      modifies this
      ensures rows == Upserted(old(rows), e, now)
    {
      var receivedAt := if KeyOf(e) in rows then rows[KeyOf(e)].receivedAt else now;
      rows := rows[KeyOf(e) := Row(e.status, e.amount, e.currency, e.occurredAt, e.rawPayload, receivedAt, now)];
    }
  }

  // ---- The webhook handler ----

  /** What the handler reads of a request: headers, the raw text, the parsed body. */
  datatype Request = Request(headers: map<string, string>, rawBody: string, body: Value)

  datatype Reply = Reply(code: int, body: Value)

  function ErrorReply(code: int, message: string): Reply {
    Reply(code, Obj(map["ok" := Bool(false), "error" := Str(message)]))
  }

  const Unauthorized := ErrorReply(401, "invalid signature")
  const MissingId := ErrorReply(400, "missing transaction id")
  const Accepted := Reply(200, Obj(map["ok" := Bool(true)]))

  /**
   * The handler's collaborators: the webhook secret from the environment,
   * HMAC-SHA256, the numeric-literal reader behind `Number(...)`, and the
   * date parser behind `new Date(...)`.
   */
  datatype Config = Config(secret: Option<string>, hmac: Hmac, lit: LiteralReader, toDate: Value -> Time)

  /** pg binds `undefined` as SQL NULL and every other value as itself. */
  function SqlParam(v: Value): (p: Value)
    ensures p != Undefined
    ensures v != Undefined ==> p == v
  {
    if v == Undefined then Null else v
  }

  predicate SignatureAccepted(req: Request, cfg: Config) {
    IsValidSignature(cfg.secret, GetSignature(req.headers), req.rawBody, cfg.hmac)
  }

  /**
   * The statement parameters built from a parsed payload: no parameter is
   * `undefined`, the key is `("hotmart", externalId)`, the body is stored
   * as the raw payload, and a falsy date becomes NULL.
   */
  function EventOf(p: Purchase, body: Value, cfg: Config): (e: SalesEvent)
    ensures KeyOf(e) == (HotmartSource, p.externalId) && e.rawPayload == body
    ensures e.status != Undefined && e.currency != Undefined
    ensures p.status != Undefined ==> e.status == p.status
    ensures p.currency != Undefined ==> e.currency == p.currency
    ensures e.amount == p.amount
    ensures e.occurredAt.None? <==> !Truthy(p.occurredAt)
    ensures e.occurredAt.Some? ==> e.occurredAt.value == cfg.toDate(p.occurredAt)
  {
    SalesEvent(HotmartSource, p.externalId, SqlParam(p.status), p.amount, SqlParam(p.currency),
               if Truthy(p.occurredAt) then Some(cfg.toDate(p.occurredAt)) else None,
               body)
  }

  /** The handler's decision, made before the database is touched. */
  datatype Decision = Reject(reply: Reply) | Store(event: SalesEvent)

  /**
   * The signature is checked first (401), then the id (400); otherwise the
   * normalised delivery is stored under `("hotmart", externalId)`.
   */
  function Decide(req: Request, cfg: Config): (d: Decision)
    ensures !SignatureAccepted(req, cfg) ==> d == Reject(Unauthorized)
    ensures SignatureAccepted(req, cfg) && !Truthy(ParsePayload(req.body, cfg.lit).externalId) ==>
              d == Reject(MissingId)
    ensures d.Store? <==> SignatureAccepted(req, cfg) && Truthy(ParsePayload(req.body, cfg.lit).externalId)
    ensures d.Store? ==> KeyOf(d.event) == (HotmartSource, ParsePayload(req.body, cfg.lit).externalId) &&
                         d.event.rawPayload == req.body
    ensures d.Store? ==> var p := ParsePayload(req.body, cfg.lit);
                         d.event.status == SqlParam(p.status) && d.event.amount == p.amount &&
                         d.event.currency == SqlParam(p.currency) &&
                         d.event.occurredAt == (if Truthy(p.occurredAt) then Some(cfg.toDate(p.occurredAt)) else None)
  {
    if !SignatureAccepted(req, cfg) then Reject(Unauthorized)
    else
      var p := ParsePayload(req.body, cfg.lit);
      if !Truthy(p.externalId) then Reject(MissingId)
      else Store(EventOf(p, req.body, cfg))
  }

  /** A rejected signature gives 401 whatever the body holds, even no id at all. */
  lemma SignatureCheckedBeforeBody(req: Request, otherBody: Value, cfg: Config)
    requires !SignatureAccepted(req, cfg)
    ensures Decide(req, cfg) == Decide(req.(body := otherBody), cfg) == Reject(Unauthorized)
  {
  }

  /**
   * `POST /api/webhooks/hotmart` at time `now`: a rejected request leaves
   * the table as it was; an accepted one is upserted and answered 200.
   */
  method HandleHotmartWebhook(ledger: SalesEvents, req: Request, cfg: Config, now: Time) returns (reply: Reply)
    modifies ledger
    ensures reply.code == 401 <==> !SignatureAccepted(req, cfg)
    ensures reply.code == 400 <==> SignatureAccepted(req, cfg) && !Truthy(ParsePayload(req.body, cfg.lit).externalId)
    ensures reply.code == 200 <==> Decide(req, cfg).Store?
    ensures Decide(req, cfg).Reject? ==> reply == Decide(req, cfg).reply && ledger.rows == old(ledger.rows)
    ensures Decide(req, cfg).Store? ==> reply == Accepted && ledger.rows == Upserted(old(ledger.rows), Decide(req, cfg).event, now)
  {
    var signature := GetSignature(req.headers);
    if !IsValidSignature(cfg.secret, signature, req.rawBody, cfg.hmac) {
      return Unauthorized;
    }
    var p := ParsePayload(req.body, cfg.lit);
    if !Truthy(p.externalId) {
      return MissingId;
    }
    ledger.Upsert(EventOf(p, req.body, cfg), now);
    return Accepted;
  }

  /**
   * A flat delivery with a nested purchase date, correctly signed, is stored as one row
   * keyed `("hotmart", "T1")` with amount 97.
   */
  lemma ExampleDeliveryStored(req: Request, cfg: Config, rows: map<Key, Row>, now: Time)
    requires req.body == ExamplePayload()
    requires SignatureAccepted(req, cfg)
    requires cfg.lit("97.00") == Finite(97.0)
    ensures Decide(req, cfg).Store?
    ensures var r := Upserted(rows, Decide(req, cfg).event, now);
            (HotmartSource, Str("T1")) in r && r[(HotmartSource, Str("T1"))].amount == Some(97.0) &&
            r[(HotmartSource, Str("T1"))].status == Str("approved")
  {
    ExamplePayloadParses(cfg.lit);
    var p := ParsePayload(req.body, cfg.lit);
    assert p.externalId == Str("T1") && Truthy(p.externalId);
    var e := EventOf(p, req.body, cfg);
    assert Decide(req, cfg) == Store(e);
    assert KeyOf(e) == (HotmartSource, Str("T1")) && e.amount == Some(97.0) && e.status == Str("approved");
  }
}
