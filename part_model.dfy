/**
 * The schema of a stored part document: field constraints, the rule tying
 * the part kind to the shape of its constituent list, and the JSON view.
 */
module PartModel {
  import opened PartTypes

  /** A constituent entry: a required (non-empty) string id and a quantity of at least 1. */
  predicate ValidConstituent(c: ConstituentPart) {
    |c.id| > 0 && c.quantity >= 1
  }

  /**
   * The custom validator on `parts`: a RAW part has no constituent list or an empty one,
   * an ASSEMBLED part has a non-empty one.
   */
  predicate PartsShapeOk(t: PartType, parts: Option<seq<ConstituentPart>>) {
    if t == RAW then parts.None? || |parts.value| == 0
    else parts.Some? && |parts.value| > 0
  }

  /**
   * Everything the schema demands of a document except the stock minimum:
   * required non-empty `_id` and `name`, valid constituents, and the shape rule.
   * The kind is one of the two enum values by construction of `PartType`.
   */
  predicate WellFormed(p: Part) {
    && |p.id| > 0
    && |p.name| > 0
    && (p.parts.Some? ==> forall i :: 0 <= i < |p.parts.value| ==> ValidConstituent(p.parts.value[i]))
    && PartsShapeOk(p.partType, p.parts)
  }

  /** A document the schema accepts on save: well formed and with a stock of at least 0. */
  predicate ValidRecord(p: Part) {
    WellFormed(p) && p.quantityInStock >= 0
  }

  /**
   * The schema as Mongoose applies it on save: validators other than `required` are
   * not run on an undefined value, so the shape rule is checked only when `parts` is
   * present.
   */
  predicate SchemaAcceptsAsWritten(p: Part) {
    && |p.id| > 0
    && |p.name| > 0
    && p.quantityInStock >= 0
    && (p.parts.Some? ==>
          && (forall i :: 0 <= i < |p.parts.value| ==> ValidConstituent(p.parts.value[i]))
          && PartsShapeOk(p.partType, p.parts))
  }

  /**
   * As written, an ASSEMBLED document without a parts list passes the schema, although
   * the shape rule (and its message) says an assembly must have constituents; the
   * corrected `ValidRecord` rejects it. Otherwise the two agree.
   */
  lemma BomlessAssemblyAccepted(p: Part)
    requires |p.id| > 0 && |p.name| > 0 && p.quantityInStock >= 0
    ensures p.partType == ASSEMBLED && p.parts.None? ==> SchemaAcceptsAsWritten(p) && !ValidRecord(p)
    ensures !(p.partType == ASSEMBLED && p.parts.None?) ==> (SchemaAcceptsAsWritten(p) <==> ValidRecord(p))
  {
  }

  /** Every list of constituents is acceptable for exactly one of the two kinds. */
  lemma ShapeRuleSeparatesKinds(parts: Option<seq<ConstituentPart>>)
    ensures PartsShapeOk(RAW, parts) <==> !PartsShapeOk(ASSEMBLED, parts)
    ensures PartsShapeOk(RAW, parts) <==> (parts.None? || parts.value == [])
  {
  }

  /** A valid record of either kind has a BOM exactly when it is ASSEMBLED. */
  lemma BomPresentIffAssembled(p: Part)
    requires WellFormed(p)
    ensures p.partType == ASSEMBLED <==> |Bom(p)| > 0
    ensures p.partType == ASSEMBLED ==> p.parts.Some?
  {
  }

  /**
   * The `toJSON` transform: the value of `_id` moves to `id`, `_id` is deleted,
   * and every other key keeps its value.
   */
  function ToJson<V>(ret: map<string, V>): (r: map<string, V>)
    requires "_id" in ret
    ensures "id" in r && r["id"] == ret["_id"]
    ensures "_id" !in r
    ensures r.Keys == ret.Keys - {"_id"} + {"id"}
    ensures forall k :: k in ret && k != "_id" && k != "id" ==> k in r && r[k] == ret[k]
  {
    (ret - {"_id"})["id" := ret["_id"]]
  }
}
