/**
 * `parseHotmartPayload`: the Hotmart payload shape varies between
 * integration versions, so every field is read by probing a priority list
 * of candidate paths joined with `||`.
 */
module HotmartPayload {
  import opened Wrappers
  import opened JsValue

  const ExternalIdPaths: seq<seq<string>> := [
    ["transaction_id"], ["transaction"], ["purchase", "transaction"],
    ["data", "purchase", "transaction"], ["data", "transaction"], ["id"]]

  const StatusPaths: seq<seq<string>> := [
    ["status"], ["purchase", "status"], ["data", "purchase", "status"]]

  const AmountPaths: seq<seq<string>> := [
    ["amount"], ["purchase", "price", "value"], ["data", "purchase", "price", "value"],
    ["purchase", "value"]]

  const CurrencyPaths: seq<seq<string>> := [
    ["currency"], ["purchase", "price", "currency"], ["data", "purchase", "price", "currency"],
    ["purchase", "currency"]]

  const OccurredAtPaths: seq<seq<string>> := [
    ["purchase", "date"], ["data", "purchase", "date"], ["event_date"], ["eventDate"]]

  /** The normalised fields of one delivery; `amount` is `null` (None) unless finite. */
  datatype Purchase = Purchase(
    externalId: Value,
    status: Value,
    amount: Option<real>,
    currency: Value,
    occurredAt: Value)

  /** `Number.isFinite(Number(raw)) ? Number(raw) : null`, with `undefined` giving `null`. */
  function CoerceAmount(raw: Value, lit: LiteralReader): (amount: Option<real>)
    ensures amount.None? <==> raw == Undefined || !ToNumber(raw, lit).Finite?
    ensures amount.Some? ==> ToNumber(raw, lit) == Finite(amount.value)
  {
    if raw == Undefined then None
    else match ToNumber(raw, lit)
      case Finite(r) => Some(r)
      case _ => None
  }

  /**
   * `v` is what a `||` chain over `paths` yields: one of the candidates, and
   * truthy exactly when some candidate is.
   */
  predicate PicksFrom(v: Value, payload: Value, paths: seq<seq<string>>) {
    v in Candidates(payload, paths) &&
    (Truthy(v) <==> exists i :: 0 <= i < |paths| && Truthy(Lookup(payload, paths[i])))
  }

  function ParsePayload(payload: Value, lit: LiteralReader): (p: Purchase)
    ensures PicksFrom(p.externalId, payload, ExternalIdPaths)
    ensures PicksFrom(p.status, payload, StatusPaths)
    ensures PicksFrom(p.currency, payload, CurrencyPaths)
    ensures PicksFrom(p.occurredAt, payload, OccurredAtPaths)
    ensures p.amount.Some? ==> exists raw :: raw in Candidates(payload, AmountPaths) && ToNumber(raw, lit) == Finite(p.amount.value)
  {
    Purchase(
      OrChain(Candidates(payload, ExternalIdPaths)),
      OrChain(Candidates(payload, StatusPaths)),
      CoerceAmount(OrChain(Candidates(payload, AmountPaths)), lit),
      OrChain(Candidates(payload, CurrencyPaths)),
      OrChain(Candidates(payload, OccurredAtPaths)))
  }

  /** Each field is its first truthy candidate in priority order (the id shown;
      the other fields use the same chain), else its last candidate. */
  lemma ExternalIdFollowsPriority(payload: Value, lit: LiteralReader)
    ensures forall i :: 0 <= i < |ExternalIdPaths| && Truthy(Lookup(payload, ExternalIdPaths[i])) &&
                        (forall j :: 0 <= j < i ==> !Truthy(Lookup(payload, ExternalIdPaths[j]))) ==>
                          ParsePayload(payload, lit).externalId == Lookup(payload, ExternalIdPaths[i])
    ensures (forall i :: 0 <= i < |ExternalIdPaths| ==> !Truthy(Lookup(payload, ExternalIdPaths[i]))) ==>
              ParsePayload(payload, lit).externalId == Get(payload, "id")
  {
    var cs := Candidates(payload, ExternalIdPaths);
    assert cs[5] == Lookup(payload, ["id"]) == Get(payload, "id");
  }

  /** `amount` is null exactly when the chosen candidate is `undefined` or does
      not coerce to a finite number; otherwise it is the coerced number. */
  lemma AmountIsFiniteCoercion(payload: Value, lit: LiteralReader)
    ensures var raw := OrChain(Candidates(payload, AmountPaths));
            var a := ParsePayload(payload, lit).amount;
            (a.None? <==> raw == Undefined || !ToNumber(raw, lit).Finite?) &&
            (a.Some? ==> ToNumber(raw, lit) == Finite(a.value))
  {
  }

  /** The id is missing (falsy) exactly when every one of the six candidates is falsy. */
  lemma MissingIdIffAllCandidatesFalsy(payload: Value, lit: LiteralReader)
    ensures !Truthy(ParsePayload(payload, lit).externalId) <==>
              forall i :: 0 <= i < |ExternalIdPaths| ==> !Truthy(Lookup(payload, ExternalIdPaths[i]))
  {
    var cs := Candidates(payload, ExternalIdPaths);
    assert forall i :: 0 <= i < |ExternalIdPaths| ==> cs[i] == Lookup(payload, ExternalIdPaths[i]);
  }

  /** A truthy `transaction_id` wins over every other id candidate. */
  lemma TransactionIdWins(payload: Value, lit: LiteralReader)
    requires Truthy(Get(payload, "transaction_id"))
    ensures ParsePayload(payload, lit).externalId == Get(payload, "transaction_id")
  {
    var cs := Candidates(payload, ExternalIdPaths);
    assert cs[0] == Lookup(payload, ["transaction_id"]) == Get(payload, "transaction_id");
  }

  /** Falsy candidates (0, "", false, null) are skipped: an id of 0 falls
      through to `transaction`. */
  lemma FalsyCandidateSkipped(payload: Value, lit: LiteralReader)
    requires Get(payload, "transaction_id") == Num(0.0)
    requires Truthy(Get(payload, "transaction"))
    ensures ParsePayload(payload, lit).externalId == Get(payload, "transaction")
  {
    var cs := Candidates(payload, ExternalIdPaths);
    assert cs[0] == Lookup(payload, ["transaction_id"]) == Get(payload, "transaction_id");
    assert cs[1] == Lookup(payload, ["transaction"]) == Get(payload, "transaction");
  }

  /** When nothing is truthy the last candidate is kept as is: a `null`
      `purchase.value` reaches `Number(null)` and yields an amount of 0, while a
      missing one yields no amount. */
  lemma NullLastAmountCandidateIsZero(payload: Value, lit: LiteralReader)
    requires forall i :: 0 <= i < 3 ==> !Truthy(Lookup(payload, AmountPaths[i]))
    requires Lookup(payload, ["purchase", "value"]) == Null
    ensures ParsePayload(payload, lit).amount == Some(0.0)
  {
    var cs := Candidates(payload, AmountPaths);
    assert cs[3] == Lookup(payload, ["purchase", "value"]);
    assert forall i :: 0 <= i < |cs| ==> !Truthy(cs[i]);
  }

  lemma MissingAmountIsNull(payload: Value, lit: LiteralReader)
    requires forall i :: 0 <= i < 3 ==> !Truthy(Lookup(payload, AmountPaths[i]))
    requires Lookup(payload, ["purchase", "value"]) == Undefined
    ensures ParsePayload(payload, lit).amount == None
  {
    var cs := Candidates(payload, AmountPaths);
    assert cs[3] == Lookup(payload, ["purchase", "value"]);
    assert forall i :: 0 <= i < |cs| ==> !Truthy(cs[i]);
  }

  /** A flat delivery with a nested purchase date. */
  function ExamplePayload(): Value {
    Obj(map[
      "transaction_id" := Str("T1"),
      "status" := Str("approved"),
      "amount" := Str("97.00"),
      "currency" := Str("BRL"),
      "purchase" := Obj(map["date" := Str("2024-01-01T00:00:00Z")])])
  }

  /** A truthy first candidate decides a field. */
  lemma FirstCandidateWins(payload: Value, paths: seq<seq<string>>)
    requires |paths| > 0 && Truthy(Lookup(payload, paths[0]))
    ensures OrChain(Candidates(payload, paths)) == Lookup(payload, paths[0])
  {
    var cs := Candidates(payload, paths);
    assert cs[0] == Lookup(payload, paths[0]);
  }

  lemma ExampleIdAndStatus(lit: LiteralReader)
    ensures ParsePayload(ExamplePayload(), lit).externalId == Str("T1")
    ensures ParsePayload(ExamplePayload(), lit).status == Str("approved")
  {
    var p := ExamplePayload();
    assert Lookup(p, ExternalIdPaths[0]) == Str("T1");
    FirstCandidateWins(p, ExternalIdPaths);
    assert Lookup(p, StatusPaths[0]) == Str("approved");
    FirstCandidateWins(p, StatusPaths);
  }

  lemma ExampleAmount(lit: LiteralReader)
    requires lit("97.00") == Finite(97.0)
    ensures ParsePayload(ExamplePayload(), lit).amount == Some(97.0)
  {
    var p := ExamplePayload();
    assert Lookup(p, AmountPaths[0]) == Str("97.00");
    FirstCandidateWins(p, AmountPaths);
    var t := "97.00";
    assert !IsJsSpace(t[0]) && !IsJsSpace(t[|t| - 1]);
    assert TrimEnd(TrimStart(t)) == t;
    assert CoerceAmount(Str(t), lit) == Some(97.0);
  }

  lemma ExampleCurrencyAndDate(lit: LiteralReader)
    ensures ParsePayload(ExamplePayload(), lit).currency == Str("BRL")
    ensures ParsePayload(ExamplePayload(), lit).occurredAt == Str("2024-01-01T00:00:00Z")
  {
    var p := ExamplePayload();
    assert Lookup(p, CurrencyPaths[0]) == Str("BRL");
    FirstCandidateWins(p, CurrencyPaths);
    assert Lookup(p, OccurredAtPaths[0]) == Str("2024-01-01T00:00:00Z");
    FirstCandidateWins(p, OccurredAtPaths);
  }

  /** The flat example delivery normalises to id T1, approved, 97 BRL and its purchase date. */
  lemma ExamplePayloadParses(lit: LiteralReader)
    requires lit("97.00") == Finite(97.0)
    ensures ParsePayload(ExamplePayload(), lit) ==
              Purchase(Str("T1"), Str("approved"), Some(97.0), Str("BRL"), Str("2024-01-01T00:00:00Z"))
  {
    ExampleIdAndStatus(lit);
    ExampleAmount(lit);
    ExampleCurrencyAndDate(lit);
  }
}
