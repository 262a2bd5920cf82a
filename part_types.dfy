/**
 * The entities of the part inventory: part kinds, bill-of-materials entries,
 * part records, and the errors the inventory engine reports.
 */
module PartTypes {

  /** A RAW part is an atomic stock unit; an ASSEMBLED part is built from a BOM. */
  datatype PartType = RAW | ASSEMBLED

  /** One bill-of-materials entry: the id of a constituent part and how many are used per unit. */
  datatype ConstituentPart = ConstituentPart(id: string, quantity: int)

  datatype Option<+T> = None | Some(value: T)

  /**
   * A stored part record. `id` is the document's `_id`; `parts` is the optional BOM
   * (absent and empty are different values, as in the stored document).
   * Timestamps are not modelled.
   */
  datatype Part = Part(
    id: string,
    name: string,
    partType: PartType,
    quantityInStock: int,
    parts: Option<seq<ConstituentPart>>)

  /** The errors the core raises, one constructor per distinct failure. */
  datatype Error =
    | PartNotFound(partId: string)               // NotFoundError: the part given to addInventory is absent
    | ConstituentNotFound(constituentId: string) // NotFoundError: a BOM entry's part is absent while building
    | ConstituentsNotFound(missing: seq<string>) // NotFoundError: BOM validation, listing the absent ids
    | InsufficientInventory(shortId: string)     // InsufficientInventoryError naming the constituent
    | CircularDependency                         // ValidationError('Circular dependency detected')
    | Conflict                                   // ConflictError raised by createPart
    | DuplicateKey                               // the store's unique-index violation on _id
    | SchemaViolation                            // the document failed schema validation on save

  datatype Result<+T> = Ok(value: T) | Err(error: Error)

  /** The outcome of an operation that returns nothing on success. */
  datatype Outcome = Pass | Fail(error: Error)

  /** The constituents of a part, an absent list read as none. */
  function Bom(p: Part): seq<ConstituentPart> {
    if p.parts.Some? then p.parts.value else []
  }

  /** The constituent ids of a BOM, in BOM order. */
  function IdsOf(bom: seq<ConstituentPart>): (ids: seq<string>)
    ensures |ids| == |bom|
    ensures forall i :: 0 <= i < |bom| ==> ids[i] == bom[i].id
  {
    if bom == [] then [] else [bom[0].id] + IdsOf(bom[1..])
  }

  /** No id occurs twice. */
  predicate Distinct(ids: seq<string>) {
    forall i, j :: 0 <= i < j < |ids| ==> ids[i] != ids[j]
  }
}
