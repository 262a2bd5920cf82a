/**
 * The part-inventory engine: creating parts (with BOM validation and cycle
 * detection for assemblies) and adding inventory (a plain increment for RAW
 * parts; check, deduct and credit for ASSEMBLED parts).
 *
 * The persistent collection is a map from `_id` to the stored record. Each
 * awaited store call of the service is one read or one write on that map,
 * in the order the service issues them; nothing is rolled back.
 */
module PartService {
  import opened PartTypes
  import opened PartModel
  import IdGenerator

  type Store = map<string, Part>

  // ---------------------------------------------------------------------
  // Store invariants

  /** Every record sits under its own id and satisfies the schema (stock aside). */
  ghost predicate StoreValid(s: Store) {
    forall k :: k in s ==> s[k].id == k && WellFormed(s[k])
  }

  /** A BOM of part `owner` names existing parts other than `owner`, each at most once. */
  ghost predicate SoundBom(s: Store, owner: string, bom: seq<ConstituentPart>) {
    && Distinct(IdsOf(bom))
    && forall i :: 0 <= i < |bom| ==> bom[i].id in s && bom[i].id != owner
  }

  ghost predicate BomsSound(s: Store) {
    forall k :: k in s ==> SoundBom(s, k, Bom(s[k]))
  }

  ghost predicate StocksNonNegative(s: Store) {
    forall k :: k in s ==> s[k].quantityInStock >= 0
  }

  /** The state the two use cases keep: valid records, sound BOMs, no negative stock. */
  ghost predicate ConsistentStore(s: Store) {
    StoreValid(s) && BomsSound(s) && StocksNonNegative(s)
  }

  // ---------------------------------------------------------------------
  // Store primitives

  /** `save()`: the document is validated against the schema, then written. */
  function SaveOutcome(s: Store, doc: Part): (Outcome, Store) {
    if ValidRecord(doc) then (Pass, s[doc.id := doc]) else (Fail(SchemaViolation), s)
  }

  /** `save()` of a new document: validation, then the unique index on `_id`, then the write. */
  function InsertOutcome(s: Store, doc: Part): (Outcome, Store) {
    if !ValidRecord(doc) then (Fail(SchemaViolation), s)
    else if doc.id in s then (Fail(DuplicateKey), s)
    else (Pass, s[doc.id := doc])
  }

  /** `updateOne({_id: k}, {$inc: {quantityInStock: delta}})`: unconditional; no document, no change. */
  function IncStock(s: Store, k: string, delta: int): (r: Store)
    ensures r.Keys == s.Keys
  {
    if k in s then s[k := s[k].(quantityInStock := s[k].quantityInStock + delta)] else s
  }

  /** `$inc` adds the delta to the stock of the record under `k`, if there is one, and changes nothing else. */
  lemma IncStockEffect(s: Store, k: string, delta: int)
    ensures forall j :: j in s ==>
      (IncStock(s, k, delta)[j] == if j == k then s[j].(quantityInStock := s[j].quantityInStock + delta) else s[j])
  {
  }

  // ---------------------------------------------------------------------
  // Adding inventory

  /** The part with `q` more units in stock. */
  function Credited(p: Part, q: int): Part {
    p.(quantityInStock := p.quantityInStock + q)
  }

  /** The check of one BOM entry when building `q` units: the part must exist and hold `quantity * q`. */
  function ShortfallOf(s: Store, c: ConstituentPart, q: int): Option<Error> {
    if c.id !in s then Some(ConstituentNotFound(c.id))
    else if s[c.id].quantityInStock < c.quantity * q then Some(InsufficientInventory(c.id))
    else None
  }

  /** The check pass: the first failing entry in BOM order, every entry read from the same store. */
  function FirstShortfall(s: Store, bom: seq<ConstituentPart>, q: int): Option<Error> {
    if bom == [] then None
    else if ShortfallOf(s, bom[0], q).Some? then ShortfallOf(s, bom[0], q)
    else FirstShortfall(s, bom[1..], q)
  }

  /** The deduction pass: one unconditional decrement per BOM entry, in BOM order. */
  function Deduct(s: Store, bom: seq<ConstituentPart>, q: int): Store {
    if bom == [] then s
    else Deduct(IncStock(s, bom[0].id, -(bom[0].quantity * q)), bom[1..], q)
  }

  /** The total the BOM takes from part `k` when building `q` units (summed over repeated entries). */
  function Required(bom: seq<ConstituentPart>, k: string, q: int): int {
    if bom == [] then 0
    else (if bom[0].id == k then bom[0].quantity * q else 0) + Required(bom[1..], k, q)
  }

  /**
   * Building `q` units of assembly `p`, read from the store before the call:
   * the check pass, then the deduction pass, then the save of `p` with its stock
   * raised by `q` (the value read at the start plus `q`).
   */
  function AssembledOutcome(s: Store, p: Part, q: int): (Outcome, Store) {
    match FirstShortfall(s, Bom(p), q)
    case Some(e) => (Fail(e), s)
    case None => SaveOutcome(Deduct(s, Bom(p), q), Credited(p, q))
  }

  /** `addInventory(partId, q)` on store `s`: its outcome and the store afterwards. */
  function AddInventoryOutcome(s: Store, partId: string, q: int): (Outcome, Store)
    requires StoreValid(s)
  {
    if partId !in s then (Fail(PartNotFound(partId)), s)
    else if s[partId].partType == RAW then SaveOutcome(s, Credited(s[partId], q))
    else AssembledOutcome(s, s[partId], q)
  }

  /** The check pass succeeds exactly when every entry's part exists and holds enough stock. */
  lemma {:induction false} FirstShortfallNoneIff(s: Store, bom: seq<ConstituentPart>, q: int)
    ensures FirstShortfall(s, bom, q) == None <==>
      forall i :: 0 <= i < |bom| ==> bom[i].id in s && s[bom[i].id].quantityInStock >= bom[i].quantity * q
  {
    if bom != [] {
      FirstShortfallNoneIff(s, bom[1..], q);
      assert forall i :: 1 <= i < |bom| ==> bom[i] == bom[1..][i - 1];
    }
  }

  /** A failing check pass reports the first failing entry, with the error kind that entry calls for. */
  lemma {:induction false} FirstShortfallIsFirst(s: Store, bom: seq<ConstituentPart>, q: int) returns (j: nat)
    requires FirstShortfall(s, bom, q).Some?
    ensures j < |bom| && ShortfallOf(s, bom[j], q).Some?
    ensures forall i :: 0 <= i < j ==> ShortfallOf(s, bom[i], q).None?
    ensures FirstShortfall(s, bom, q) ==
      Some(if bom[j].id !in s then ConstituentNotFound(bom[j].id) else InsufficientInventory(bom[j].id))
  {
    if ShortfallOf(s, bom[0], q).Some? {
      j := 0;
    } else {
      var j' := FirstShortfallIsFirst(s, bom[1..], q);
      j := j' + 1;
      assert forall i :: 1 <= i < |bom| ==> bom[i] == bom[1..][i - 1];
    }
  }

  /** The deduction pass lowers each part's stock by what the BOM takes from it, and nothing else. */
  lemma {:induction false} DeductEffect(s: Store, bom: seq<ConstituentPart>, q: int)
    ensures Deduct(s, bom, q).Keys == s.Keys
    ensures forall k :: k in s ==>
      Deduct(s, bom, q)[k] == s[k].(quantityInStock := s[k].quantityInStock - Required(bom, k, q))
  {
    if bom != [] {
      var s' := IncStock(s, bom[0].id, -(bom[0].quantity * q));
      DeductEffect(s', bom[1..], q);
    }
  }

  /** With distinct ids, what the BOM takes from one of its parts is that entry's quantity times `q`. */
  lemma {:induction false} RequiredOfDistinct(bom: seq<ConstituentPart>, j: nat, q: int)
    requires Distinct(IdsOf(bom)) && j < |bom|
    ensures Required(bom, bom[j].id, q) == bom[j].quantity * q
  {
    if j == 0 {
      RequiredOfAbsent(bom[1..], bom[0].id, q);
    } else {
      assert IdsOf(bom[1..]) == IdsOf(bom)[1..];
      RequiredOfDistinct(bom[1..], j - 1, q);
    }
  }

  /** A BOM takes nothing from a part it does not list. */
  lemma {:induction false} RequiredOfAbsent(bom: seq<ConstituentPart>, k: string, q: int)
    requires forall i :: 0 <= i < |bom| ==> bom[i].id != k
    ensures Required(bom, k, q) == 0
  {
    if bom != [] {
      RequiredOfAbsent(bom[1..], k, q);
    }
  }

  /** On an absent id, addInventory reports NotFound for that id and changes nothing. */
  lemma AddInventoryMissingPart(s: Store, partId: string, q: int)
    requires StoreValid(s) && partId !in s
    ensures AddInventoryOutcome(s, partId, q) == (Fail(PartNotFound(partId)), s)
  {
  }

  /**
   * On a RAW part, addInventory raises its stock by `q` and leaves every other record
   * as it was; it fails (changing nothing) only if the new stock would be negative.
   */
  lemma AddInventoryRaw(s: Store, partId: string, q: int)
    requires StoreValid(s) && partId in s && s[partId].partType == RAW
    ensures var (r, s') := AddInventoryOutcome(s, partId, q);
      && (r == Pass <==> s[partId].quantityInStock + q >= 0)
      && (r.Fail? ==> r.error == SchemaViolation && s' == s)
      && (r == Pass ==> s'.Keys == s.Keys && s'[partId].quantityInStock == s[partId].quantityInStock + q
                        && s'[partId] == Credited(s[partId], q)
                        && forall k :: k in s && k != partId ==> s'[k] == s[k])
  {
  }

  /**
   * If any BOM entry's part is missing or short, building fails naming the first
   * such entry in BOM order, and the store is unchanged: no write happens before
   * the check pass has finished.
   */
  lemma AddInventoryShortfall(s: Store, partId: string, q: int) returns (j: nat)
    requires StoreValid(s) && partId in s && s[partId].partType == ASSEMBLED
    requires exists i :: 0 <= i < |Bom(s[partId])| && ShortfallOf(s, Bom(s[partId])[i], q).Some?
    ensures var bom := Bom(s[partId]);
      && j < |bom| && ShortfallOf(s, bom[j], q).Some?
      && (forall i :: 0 <= i < j ==> bom[i].id in s && s[bom[i].id].quantityInStock >= bom[i].quantity * q)
      && AddInventoryOutcome(s, partId, q) ==
           (Fail(if bom[j].id !in s then ConstituentNotFound(bom[j].id) else InsufficientInventory(bom[j].id)), s)
  {
    var bom := Bom(s[partId]);
    FirstShortfallNoneIff(s, bom, q);
    j := FirstShortfallIsFirst(s, bom, q);
  }

  /**
   * A successful build of `q` units: the assembly's stock rises by `q` and every
   * other part loses exactly what the BOM takes from it.
   */
  lemma AddInventoryAssembledSuccess(s: Store, partId: string, q: int)
    requires StoreValid(s) && partId in s && s[partId].partType == ASSEMBLED
    requires AddInventoryOutcome(s, partId, q).0 == Pass
    ensures var (_, s') := AddInventoryOutcome(s, partId, q);
      && s'.Keys == s.Keys
      && s'[partId] == Credited(s[partId], q)
      && forall k :: k in s && k != partId ==>
           s'[k] == s[k].(quantityInStock := s[k].quantityInStock - Required(Bom(s[partId]), k, q))
  {
    DeductEffect(s, Bom(s[partId]), q);
  }

  /**
   * With a sound BOM (distinct ids, not the assembly itself), a successful build lowers
   * each constituent by exactly its quantity times `q`, raises the assembly by `q`,
   * and changes no other record.
   */
  lemma AddInventoryAssembledExact(s: Store, partId: string, q: int)
    requires StoreValid(s) && partId in s && s[partId].partType == ASSEMBLED
    requires SoundBom(s, partId, Bom(s[partId]))
    requires AddInventoryOutcome(s, partId, q).0 == Pass
    ensures var (_, s') := AddInventoryOutcome(s, partId, q); var bom := Bom(s[partId]);
      && s'.Keys == s.Keys
      && s'[partId].quantityInStock == s[partId].quantityInStock + q
      && (forall j :: 0 <= j < |bom| ==>
            s'[bom[j].id].quantityInStock == s[bom[j].id].quantityInStock - bom[j].quantity * q)
      && (forall k :: k in s && k != partId && k !in IdsOf(bom) ==> s'[k] == s[k])
  {
    var bom := Bom(s[partId]);
    AddInventoryAssembledSuccess(s, partId, q);
    forall j | 0 <= j < |bom| ensures Required(bom, bom[j].id, q) == bom[j].quantity * q {
      RequiredOfDistinct(bom, j, q);
    }
    forall k | k in s && k != partId && k !in IdsOf(bom) ensures Required(bom, k, q) == 0 {
      RequiredOfAbsent(bom, k, q);
    }
  }

  /** `s'` differs from `s` in stock values only. */
  ghost predicate StockOnlyChange(s: Store, s': Store) {
    && s'.Keys == s.Keys
    && forall k :: k in s ==> s'[k] == s[k].(quantityInStock := s'[k].quantityInStock)
  }

  lemma StockOnlyChangeKeepsShape(s: Store, s': Store)
    requires StockOnlyChange(s, s')
    ensures StoreValid(s) ==> StoreValid(s')
    ensures BomsSound(s) ==> BomsSound(s')
  {
    if BomsSound(s) {
      forall k | k in s' ensures SoundBom(s', k, Bom(s'[k])) {
        assert Bom(s'[k]) == Bom(s[k]);
        assert SoundBom(s, k, Bom(s[k]));
      }
    }
  }

  /** After a passed check pass, a deduction with distinct BOM ids leaves every stock non-negative. */
  lemma DeductCovered(s: Store, bom: seq<ConstituentPart>, q: int)
    requires StocksNonNegative(s) && Distinct(IdsOf(bom)) && FirstShortfall(s, bom, q) == None
    ensures StockOnlyChange(s, Deduct(s, bom, q))
    ensures StocksNonNegative(Deduct(s, bom, q))
  {
    FirstShortfallNoneIff(s, bom, q);
    DeductEffect(s, bom, q);
    var d := Deduct(s, bom, q);
    forall k | k in d ensures d[k].quantityInStock >= 0 {
      if k in IdsOf(bom) {
        var j :| 0 <= j < |bom| && IdsOf(bom)[j] == k;
        RequiredOfDistinct(bom, j, q);
      } else {
        RequiredOfAbsent(bom, k, q);
      }
    }
  }

  /** A successful build in a consistent store leaves no stock negative and the store consistent. */
  lemma AssembledPreservesConsistency(s: Store, partId: string, q: int)
    requires ConsistentStore(s) && q >= 1 && partId in s && s[partId].partType == ASSEMBLED
    requires FirstShortfall(s, Bom(s[partId]), q) == None
    ensures AssembledOutcome(s, s[partId], q).0 == Pass
    ensures ConsistentStore(AssembledOutcome(s, s[partId], q).1)
  {
    var p := s[partId];
    assert SoundBom(s, partId, Bom(p));
    DeductCovered(s, Bom(p), q);
    CreditKeepsConsistency(s, Deduct(s, Bom(p), q), p, q);
  }

  /** Writing the credited snapshot over a stock-only change of a consistent store keeps it consistent. */
  lemma CreditKeepsConsistency(s: Store, d: Store, p: Part, q: int)
    requires ConsistentStore(s) && q >= 1 && p.id in s && s[p.id] == p
    requires StockOnlyChange(s, d) && StocksNonNegative(d)
    ensures ValidRecord(Credited(p, q))
    ensures ConsistentStore(d[p.id := Credited(p, q)])
  {
    var s' := d[p.id := Credited(p, q)];
    assert StockOnlyChange(s, s');
    StockOnlyChangeKeepsShape(s, s');
  }

  /**
   * In a consistent store addInventory keeps the store consistent: with distinct BOM
   * ids every decrement was covered by the check pass, so no stock goes negative.
   * It is also all or nothing there: a failure leaves the store unchanged.
   */
  lemma AddInventoryPreservesConsistency(s: Store, partId: string, q: int)
    requires ConsistentStore(s) && q >= 1
    ensures var (r, s') := AddInventoryOutcome(s, partId, q);
      ConsistentStore(s') && (r.Fail? ==> s' == s) && r != Fail(SchemaViolation)
  {
    if partId in s {
      if s[partId].partType == ASSEMBLED {
        if FirstShortfall(s, Bom(s[partId]), q) == None {
          AssembledPreservesConsistency(s, partId, q);
        } else {
          var _ := FirstShortfallIsFirst(s, Bom(s[partId]), q);
        }
      } else {
        var s' := s[partId := Credited(s[partId], q)];
        assert StockOnlyChange(s, s');
        StockOnlyChangeKeepsShape(s, s');
      }
    }
  }

  /**
   * Repeated BOM ids defeat the check pass: each entry is compared with the same
   * stock read, so a BOM listing part `b` twice with quantity 2 passes against a
   * stock of 3, and building one unit leaves `b` at -1.
   */
  lemma RepeatedIdOversells(s: Store, a: string, b: string)
    requires StoreValid(s) && a in s && b in s && a != b
    requires s[a].partType == ASSEMBLED && s[a].quantityInStock >= 0 && s[b].quantityInStock == 3
    requires Bom(s[a]) == [ConstituentPart(b, 2), ConstituentPart(b, 2)]
    ensures AddInventoryOutcome(s, a, 1).0 == Pass
    ensures b in AddInventoryOutcome(s, a, 1).1
    ensures AddInventoryOutcome(s, a, 1).1[b].quantityInStock == -1
  {
    var bom := Bom(s[a]);
    FirstShortfallNoneIff(s, bom, 1);
    DeductEffect(s, bom, 1);
    var e := ConstituentPart(b, 2);
    assert bom[1..] == [e] && [e][1..] == [];
    assert Required([e], b, 1) == 2;
  }

  // ---------------------------------------------------------------------
  // BOM validation

  /** The distinct listed ids that the store holds: what the batched lookup returns. */
  function FoundIds(s: Store, ids: seq<string>): set<string> {
    set id | id in ids && id in s
  }

  /** The listed ids the store does not hold, in input order. */
  function MissingIds(s: Store, ids: seq<string>): (m: seq<string>)
    ensures forall x :: x in m <==> x in ids && x !in s
  {
    if ids == [] then []
    else (if ids[0] in s then [] else [ids[0]]) + MissingIds(s, ids[1..])
  }

  /** The missing ids of a concatenation are those of each part, in order, repeats kept. */
  lemma {:induction false} MissingIdsConcat(s: Store, a: seq<string>, b: seq<string>)
    ensures MissingIds(s, a + b) == MissingIds(s, a) + MissingIds(s, b)
  {
    if a != [] {
      assert (a + b)[0] == a[0] && (a + b)[1..] == a[1..] + b;
      MissingIdsConcat(s, a[1..], b);
    } else {
      assert a + b == b;
    }
  }

  /** A single id is missing exactly when the store lacks it. */
  lemma MissingIdsSingle(s: Store, x: string)
    ensures MissingIds(s, [x]) == if x in s then [] else [x]
  {
    assert [x][1..] == [];
  }

  /**
   * `validateConstituentParts`: one batched lookup; when the number of documents found
   * differs from the number of ids listed, NotFound with the listed ids that are absent.
   */
  function ValidateConstituentParts(s: Store, parts: seq<ConstituentPart>): Outcome {
    var ids := IdsOf(parts);
    if |FoundIds(s, ids)| != |ids| then Fail(ConstituentsNotFound(MissingIds(s, ids))) else Pass
  }

  function SetOf(ids: seq<string>): set<string> {
    set id | id in ids
  }

  lemma {:induction false} SetOfSize(ids: seq<string>)
    ensures |SetOf(ids)| <= |ids|
    ensures |SetOf(ids)| == |ids| <==> Distinct(ids)
  {
    if ids != [] {
      var rest := ids[1..];
      SetOfSize(rest);
      assert SetOf(ids) == {ids[0]} + SetOf(rest);
      if ids[0] in rest {
        assert SetOf(ids) == SetOf(rest);
        var k :| 0 <= k < |rest| && rest[k] == ids[0];
        assert ids[k + 1] == ids[0];
      } else {
        assert Distinct(ids) <==> Distinct(rest) by {
          if Distinct(rest) {
            forall i, j | 0 <= i < j < |ids| ensures ids[i] != ids[j] {
              if i > 0 { assert ids[i] == rest[i - 1] && ids[j] == rest[j - 1]; }
              else { assert ids[j] == rest[j - 1]; }
            }
          }
          if Distinct(ids) {
            forall i, j | 0 <= i < j < |rest| ensures rest[i] != rest[j] {
              assert rest[i] == ids[i + 1] && rest[j] == ids[j + 1];
            }
          }
        }
      }
    }
  }

  lemma ProperSubsetSmaller(a: set<string>, b: set<string>, x: string)
    requires a <= b && x in b && x !in a
    ensures |a| < |b|
  {
    assert b == a + (b - a);
    assert x in b - a;
  }

  /** When every listed id is stored, the lookup finds one document per distinct id. */
  lemma FoundAllListed(s: Store, ids: seq<string>)
    requires forall i :: 0 <= i < |ids| ==> ids[i] in s
    ensures FoundIds(s, ids) == SetOf(ids)
  {
  }

  /** When some listed id is absent, the lookup finds fewer documents than ids listed. */
  lemma FoundFewerThanListed(s: Store, ids: seq<string>, i: nat)
    requires i < |ids| && ids[i] !in s
    ensures |FoundIds(s, ids)| < |ids|
  {
    SetOfSize(ids);
    ProperSubsetSmaller(FoundIds(s, ids), SetOf(ids), ids[i]);
  }

  /** BOM validation passes exactly when every listed id exists and no id is listed twice. */
  lemma ValidatePassIff(s: Store, parts: seq<ConstituentPart>)
    ensures ValidateConstituentParts(s, parts) == Pass <==>
      (forall i :: 0 <= i < |parts| ==> parts[i].id in s) && Distinct(IdsOf(parts))
  {
    var ids := IdsOf(parts);
    if forall i :: 0 <= i < |parts| ==> parts[i].id in s {
      FoundAllListed(s, ids);
      SetOfSize(ids);
    } else {
      var i :| 0 <= i < |parts| && parts[i].id !in s;
      FoundFewerThanListed(s, ids, i);
    }
  }

  /**
   * A failing validation lists exactly the absent ids, in input order; when every id
   * exists and the only fault is a repeated id, that list is empty.
   */
  lemma ValidateFailureReport(s: Store, parts: seq<ConstituentPart>)
    requires ValidateConstituentParts(s, parts).Fail?
    ensures ValidateConstituentParts(s, parts) == Fail(ConstituentsNotFound(MissingIds(s, IdsOf(parts))))
    ensures MissingIds(s, IdsOf(parts)) == [] <==> forall i :: 0 <= i < |parts| ==> parts[i].id in s
    ensures MissingIds(s, IdsOf(parts)) == [] ==> !Distinct(IdsOf(parts))
  {
    ValidatePassIff(s, parts);
    var m := MissingIds(s, IdsOf(parts));
    if m != [] {
      assert m[0] in m;
    }
  }

  // ---------------------------------------------------------------------
  // Cycle detection

  /** The names of the stored parts. */
  function StoreNames(s: Store): set<string> {
    set k | k in s :: s[k].name
  }

  /** A constituent the cycle check descends into: a stored ASSEMBLED part with a parts list. */
  predicate Expands(s: Store, id: string) {
    id in s && s[id].partType == ASSEMBLED && s[id].parts.Some?
  }

  /**
   * `checkCircularDependency(name, bom, visited)`: fail if `name` is already on the
   * path; otherwise put it on the path and check each descendable constituent with
   * its own copy of the path, stopping at the first failure. Each nested call adds
   * a stored name that was not on the path, so the walk terminates.
   */
  function CircularCheck(s: Store, name: string, bom: seq<ConstituentPart>, visited: set<string>): (r: Outcome)
    ensures r.Fail? ==> r.error == CircularDependency
    ensures name in visited ==> r.Fail?
    decreases StoreNames(s) + {name} - visited, 0, 0
  {
    if name in visited then Fail(CircularDependency)
    else CheckChildren(s, bom, visited + {name})
  }

  /** The loop over the constituents of one BOM, every child given the same path. */
  function CheckChildren(s: Store, bom: seq<ConstituentPart>, path: set<string>): (r: Outcome)
    ensures r.Fail? ==> r.error == CircularDependency
    decreases StoreNames(s) - path, 1, |bom|
  {
    if bom == [] then Pass
    else
      var id := bom[0].id;
      var head :=
        if Expands(s, id) then
          assert s[id].name in StoreNames(s);
          CircularCheck(s, s[id].name, s[id].parts.value, path)
        else Pass;
      if head.Fail? then head else CheckChildren(s, bom[1..], path)
  }

  /** `w` is a chain of descendable parts, each listed in the BOM of the one before. */
  ghost predicate IsChain(s: Store, w: seq<string>)
    decreases |w|
  {
    && |w| > 0
    && Expands(s, w[0])
    && (|w| > 1 ==> w[1] in IdsOf(s[w[0]].parts.value) && IsChain(s, w[1..]))
  }

  /** A walk from a BOM: a chain that starts at one of the BOM's constituents. */
  ghost predicate IsWalk(s: Store, bom: seq<ConstituentPart>, w: seq<string>) {
    IsChain(s, w) && w[0] in IdsOf(bom)
  }

  /** Walking the chain from `path`, some part's name is already on the path when it is reached. */
  ghost predicate RevisitsName(s: Store, w: seq<string>, path: set<string>)
    requires IsChain(s, w)
    decreases |w|
  {
    var n := s[w[0]].name;
    n in path || (|w| > 1 && RevisitsName(s, w[1..], path + {n}))
  }

  /** A failing check has a walk that revisits a name. */
  lemma {:induction false} FailureHasWalk(s: Store, bom: seq<ConstituentPart>, path: set<string>)
    returns (w: seq<string>)
    requires CheckChildren(s, bom, path).Fail?
    ensures IsWalk(s, bom, w) && RevisitsName(s, w, path)
    decreases StoreNames(s) - path, |bom|
  {
    var id := bom[0].id;
    assert IdsOf(bom) == [id] + IdsOf(bom[1..]);
    if Expands(s, id) && CircularCheck(s, s[id].name, s[id].parts.value, path).Fail? {
      var n := s[id].name;
      if n in path {
        w := [id];
      } else {
        assert n in StoreNames(s);
        var w' := FailureHasWalk(s, s[id].parts.value, path + {n});
        w := [id] + w';
        assert w[1..] == w';
      }
    } else {
      w := FailureHasWalk(s, bom[1..], path);
    }
  }

  /** A walk that revisits a name makes the check fail, whichever branch it lies in. */
  lemma {:induction false} WalkIsDetected(s: Store, bom: seq<ConstituentPart>, w: seq<string>, path: set<string>)
    requires IsWalk(s, bom, w) && RevisitsName(s, w, path)
    ensures CheckChildren(s, bom, path).Fail?
    decreases |w|, |bom|
  {
    assert IdsOf(bom) == [bom[0].id] + IdsOf(bom[1..]);
    if bom[0].id == w[0] {
      var n := s[w[0]].name;
      if n !in path {
        WalkIsDetected(s, s[w[0]].parts.value, w[1..], path + {n});
      }
    } else if Expands(s, bom[0].id) && CircularCheck(s, s[bom[0].id].name, s[bom[0].id].parts.value, path).Fail? {
    } else {
      WalkIsDetected(s, bom[1..], w, path);
    }
  }

  /**
   * The cycle check fails exactly when the candidate name is already visited or some
   * walk from its BOM through stored assemblies reaches a name already on its path
   * (the path starting with the candidate's own name). RAW parts and missing ids end
   * a walk; a part reached along two separate walks is not by itself a failure.
   */
  lemma CircularCheckIff(s: Store, name: string, bom: seq<ConstituentPart>, visited: set<string>)
    ensures CircularCheck(s, name, bom, visited).Fail? <==>
      name in visited || exists w :: IsWalk(s, bom, w) && RevisitsName(s, w, visited + {name})
  {
    if name !in visited {
      if CheckChildren(s, bom, visited + {name}).Fail? {
        var w := FailureHasWalk(s, bom, visited + {name});
      }
      if exists w :: IsWalk(s, bom, w) && RevisitsName(s, w, visited + {name}) {
        var w :| IsWalk(s, bom, w) && RevisitsName(s, w, visited + {name});
        WalkIsDetected(s, bom, w, visited + {name});
      }
    }
  }

  /**
   * Paths hold names, not ids: a BOM that lists a stored assembly carrying the
   * candidate's own name is rejected as circular, whatever that assembly's BOM holds.
   */
  lemma SharedNameLooksCircular(s: Store, name: string, k: string, q: int)
    requires Expands(s, k) && s[k].name == name
    ensures CircularCheck(s, name, [ConstituentPart(k, q)], {}) == Fail(CircularDependency)
  {
    assert {name} + {} == {name};
  }

  // ---------------------------------------------------------------------
  // Creating parts

  /** The error the create use case reports for an error raised inside it: only the store's duplicate key becomes a conflict. */
  function CatchCreateError(e: Error): (r: Error)
    ensures r == Conflict <==> e == DuplicateKey || e == Conflict
    ensures e != DuplicateKey ==> r == e
  {
    if e == DuplicateKey then Conflict else e
  }

  /** A substring test: `pat` occurs in `text`. */
  function Contains(text: string, pat: string): bool
    decreases |text|
  {
    pat <= text || (|text| > 0 && Contains(text[1..], pat))
  }

  lemma {:induction false} ContainsAfter(a: string, b: string)
    ensures Contains(a + b, b)
  {
    if a != [] {
      assert (a + b)[1..] == a[1..] + b;
      ContainsAfter(a[1..], b);
    }
  }

  function Join(items: seq<string>, sep: string): string {
    if items == [] then "" else if |items| == 1 then items[0] else items[0] + sep + Join(items[1..], sep)
  }

  /**
   * The message each error carries: the text the service hands to the error's
   * constructor; for the insufficient-inventory error (whose class builds its own
   * message and is not part of this model) only the id; for the store's errors the
   * leading words of the MongoDB and Mongoose messages.
   */
  function ErrorMessage(e: Error): string {
    match e
    case PartNotFound(id) => "Part with id " + id + " not found"
    case ConstituentNotFound(id) => "Constituent part " + id + " not found"
    case ConstituentsNotFound(missing) => "Constituent parts not found: " + Join(missing, ", ")
    case InsufficientInventory(id) => id
    case CircularDependency => "Circular dependency detected"
    case Conflict => "Part with this name already exists"
    case DuplicateKey => "E11000 duplicate key error"
    case SchemaViolation => "Part validation failed"
  }

  /** The catch block as written: any error whose message contains "duplicate key" becomes a conflict. */
  function CatchCreateErrorAsWritten(e: Error): Error {
    if Contains(ErrorMessage(e), "duplicate key") then Conflict else e
  }

  /** Both catches turn the store's duplicate key into a conflict. */
  lemma CatchesAgreeOnDuplicateKey()
    ensures CatchCreateErrorAsWritten(DuplicateKey) == Conflict == CatchCreateError(DuplicateKey)
  {
    var m := ErrorMessage(DuplicateKey);
    assert m == "E11000 " + "duplicate key" + " error";
    assert Contains(m, "duplicate key") by {
      assert "duplicate key" <= "duplicate key" + " error";
      ContainsPrefixAfter("E11000 ", "duplicate key", " error");
    }
  }

  lemma {:induction false} ContainsPrefixAfter(a: string, b: string, c: string)
    ensures Contains(a + b + c, b)
  {
    if a == [] {
      assert a + b + c == b + c;
    } else {
      assert (a + b + c)[1..] == a[1..] + b + c;
      ContainsPrefixAfter(a[1..], b, c);
    }
  }

  /**
   * As written, a BOM listing an absent id that contains "duplicate key" is reported
   * as a conflict rather than as a missing constituent.
   */
  lemma MissingIdReportedAsConflict(s: Store, bad: string)
    requires bad == "duplicate key" && bad !in s
    ensures ValidateConstituentParts(s, [ConstituentPart(bad, 1)]) == Fail(ConstituentsNotFound([bad]))
    ensures CatchCreateErrorAsWritten(ValidateConstituentParts(s, [ConstituentPart(bad, 1)]).error) == Conflict
    ensures CatchCreateError(ValidateConstituentParts(s, [ConstituentPart(bad, 1)]).error) == ConstituentsNotFound([bad])
  {
    var ids := IdsOf([ConstituentPart(bad, 1)]);
    assert ids == [bad];
    assert FoundIds(s, ids) == {};
    assert MissingIds(s, ids) == [bad];
    ContainsAfter("Constituent parts not found: ", bad);
  }

  /** Leading or trailing characters `trim()` removes. */
  predicate IsTrimSpace(c: char) {
    || c == ' ' || c == '\t' || c == '\n' || c == '\r' || c == '\U{000B}' || c == '\U{000C}'
    || c == '\U{00A0}' || c == '\U{1680}' || ('\U{2000}' <= c <= '\U{200A}')
    || c == '\U{2028}' || c == '\U{2029}' || c == '\U{202F}' || c == '\U{205F}'
    || c == '\U{3000}' || c == '\U{FEFF}'
  }

  /** A name as the request validation delivers it: trimmed and non-empty. */
  predicate IsTrimmedName(name: string) {
    |name| > 0 && !IsTrimSpace(name[0]) && !IsTrimSpace(name[|name| - 1])
  }

  /** The record createPart builds: generated id, the given name, kind and parts, stock 0. */
  function NewRecord(name: string, t: PartType, parts: Option<seq<ConstituentPart>>, suffix: string): Part
    requires IdGenerator.IsRandomSuffix(suffix)
  {
    Part(IdGenerator.GeneratePartId(name, suffix), name, t, 0, parts)
  }

  /** The checks createPart runs before saving: for an assembly with a parts list, validation then the cycle check. */
  function CreateChecks(s: Store, name: string, t: PartType, parts: Option<seq<ConstituentPart>>): Outcome {
    if t == ASSEMBLED && parts.Some? then
      var v := ValidateConstituentParts(s, parts.value);
      if v.Fail? then v else CircularCheck(s, name, parts.value, {})
    else Pass
  }

  /** `createPart` on store `s`: the created record or the error; on success the record is inserted. */
  function CreateOutcome(s: Store, name: string, t: PartType, parts: Option<seq<ConstituentPart>>, suffix: string): Result<Part>
    requires IdGenerator.IsRandomSuffix(suffix)
  {
    var checks := CreateChecks(s, name, t, parts);
    if checks.Fail? then Err(CatchCreateError(checks.error))
    else
      var rec := NewRecord(name, t, parts, suffix);
      var saved := InsertOutcome(s, rec).0;
      if saved.Fail? then Err(CatchCreateError(saved.error)) else Ok(rec)
  }

  /** The store after createPart. */
  function AfterCreate(s: Store, r: Result<Part>): Store {
    if r.Ok? then s[r.value.id := r.value] else s
  }

  /**
   * A successful create inserts one new record under a fresh id: the generated id,
   * the given name, kind and parts, stock 0, valid for the schema; for an assembly
   * with a parts list, all listed ids existed, none twice, and no cycle was found.
   */
  lemma CreateSuccess(s: Store, name: string, t: PartType, parts: Option<seq<ConstituentPart>>, suffix: string)
    requires IdGenerator.IsRandomSuffix(suffix)
    requires CreateOutcome(s, name, t, parts, suffix).Ok?
    ensures var p := CreateOutcome(s, name, t, parts, suffix).value;
      && p == Part(IdGenerator.GeneratePartId(name, suffix), name, t, 0, parts)
      && p.id !in s && ValidRecord(p)
      && AfterCreate(s, Ok(p)).Keys == s.Keys + {p.id}
      && (forall k :: k in s ==> AfterCreate(s, Ok(p))[k] == s[k])
      && (t == ASSEMBLED ==>
            && (forall i :: 0 <= i < |p.parts.value| ==> p.parts.value[i].id in s)
            && Distinct(IdsOf(p.parts.value))
            && CircularCheck(s, name, p.parts.value, {}) == Pass)
  {
    if t == ASSEMBLED {
      ValidatePassIff(s, parts.value);
    }
  }

  /**
   * createPart reports a conflict exactly when the checks and the schema pass and the
   * generated id is already stored; a failure of either check is reported as raised.
   * The last clause only says that `AfterCreate` keeps the store on an error; that a
   * failed create leaves the store unchanged follows from `CreatePart`'s
   * `store == AfterCreate(old(store), r)`.
   */
  lemma CreateFailures(s: Store, name: string, t: PartType, parts: Option<seq<ConstituentPart>>, suffix: string)
    requires IdGenerator.IsRandomSuffix(suffix)
    ensures var r := CreateOutcome(s, name, t, parts, suffix);
      && (r == Err(Conflict) <==>
            CreateChecks(s, name, t, parts) == Pass && ValidRecord(NewRecord(name, t, parts, suffix))
            && NewRecord(name, t, parts, suffix).id in s)
      && (t == ASSEMBLED && parts.Some? && ValidateConstituentParts(s, parts.value).Fail? ==>
            r == Err(ConstituentsNotFound(MissingIds(s, IdsOf(parts.value)))))
      && ((t == ASSEMBLED && parts.Some? && ValidateConstituentParts(s, parts.value) == Pass
           && CircularCheck(s, name, parts.value, {}).Fail?) ==> r == Err(CircularDependency))
      && (r.Err? ==> AfterCreate(s, r) == s)
  {
  }

  /** Names are not keys: a RAW part with no parts list is created unless its generated id is taken. */
  lemma RawCreateIgnoresNames(s: Store, name: string, suffix: string)
    requires IdGenerator.IsRandomSuffix(suffix) && |name| > 0
    ensures CreateOutcome(s, name, RAW, None, suffix).Ok? <==> IdGenerator.GeneratePartId(name, suffix) !in s
  {
    assert CreateChecks(s, name, RAW, None) == Pass;
    assert ValidRecord(NewRecord(name, RAW, None, suffix));
  }

  /**
   * For an assembly, stored names do decide success: listing a stored assembly that
   * carries the new part's own name makes the create fail as circular, whatever that
   * assembly's BOM holds.
   */
  lemma AssemblyCreateRejectsSharedName(s: Store, name: string, k: string, suffix: string)
    requires IdGenerator.IsRandomSuffix(suffix) && Expands(s, k) && s[k].name == name
    ensures CreateOutcome(s, name, ASSEMBLED, Some([ConstituentPart(k, 1)]), suffix) == Err(CircularDependency)
  {
    var bom := [ConstituentPart(k, 1)];
    assert IdsOf(bom) == [k];
    ValidatePassIff(s, bom);
    SharedNameLooksCircular(s, name, k, 1);
  }

  /** Inserting a valid record with a sound BOM under a fresh id keeps a store consistent. */
  lemma InsertKeepsConsistency(s: Store, p: Part)
    requires ConsistentStore(s) && p.id !in s && ValidRecord(p)
    requires SoundBom(s, p.id, Bom(p))
    ensures ConsistentStore(s[p.id := p])
  {
    var s' := s[p.id := p];
    forall k | k in s' ensures SoundBom(s', k, Bom(s'[k])) {
      if k != p.id {
        assert SoundBom(s, k, Bom(s[k]));
      }
    }
  }

  /** createPart keeps the store consistent. */
  lemma CreatePreservesConsistency(s: Store, name: string, t: PartType, parts: Option<seq<ConstituentPart>>, suffix: string)
    requires IdGenerator.IsRandomSuffix(suffix) && ConsistentStore(s)
    ensures ConsistentStore(AfterCreate(s, CreateOutcome(s, name, t, parts, suffix)))
  {
    var r := CreateOutcome(s, name, t, parts, suffix);
    if r.Ok? {
      CreateSuccess(s, name, t, parts, suffix);
      if t == RAW {
        assert Bom(r.value) == [];
      }
      InsertKeepsConsistency(s, r.value);
    }
  }

  // ---------------------------------------------------------------------
  // The constituent graph by id

  /** `rank` ranks every stored part above each stored part its BOM lists. */
  ghost predicate RankedBy(s: Store, rank: map<string, nat>) {
    && s.Keys <= rank.Keys
    && forall k, i :: k in s && 0 <= i < |Bom(s[k])| && Bom(s[k])[i].id in s ==>
         rank[Bom(s[k])[i].id] < rank[k]
  }

  /** The stored parts, linked from each part to the stored parts its BOM lists, form no cycle. */
  ghost predicate IdAcyclic(s: Store) {
    exists rank :: RankedBy(s, rank)
  }

  /** `path` runs through stored parts, each listing the next in its BOM. */
  ghost predicate IsIdChain(s: Store, path: seq<string>) {
    && (forall j :: 0 <= j < |path| ==> path[j] in s)
    && forall j :: 0 <= j < |path| - 1 ==> path[j + 1] in IdsOf(Bom(s[path[j]]))
  }

  /** Ranks fall strictly along an id chain. */
  lemma {:induction false} RankFallsAlongChain(s: Store, rank: map<string, nat>, path: seq<string>)
    requires RankedBy(s, rank) && |path| >= 2 && IsIdChain(s, path)
    ensures rank[path[|path| - 1]] < rank[path[0]]
    decreases |path|
  {
    var ids := IdsOf(Bom(s[path[0]]));
    assert path[1] in ids;
    var i :| 0 <= i < |ids| && ids[i] == path[1];
    assert rank[path[1]] < rank[path[0]];
    if |path| > 2 {
      var tail := path[1..];
      forall j | 0 <= j < |tail| - 1 ensures tail[j + 1] in IdsOf(Bom(s[tail[j]])) {
        assert tail[j] == path[j + 1] && tail[j + 1] == path[j + 2];
      }
      RankFallsAlongChain(s, rank, tail);
    }
  }

  /** In an id-acyclic store no chain of BOM links leads from a part back to itself. */
  lemma NoIdCycle(s: Store, path: seq<string>)
    requires IdAcyclic(s) && |path| >= 2 && IsIdChain(s, path)
    ensures path[|path| - 1] != path[0]
  {
    var rank :| RankedBy(s, rank);
    RankFallsAlongChain(s, rank, path);
  }

  /** A rank above the ranks of all the listed ids. */
  function RankAbove(rank: map<string, nat>, ids: seq<string>): (m: nat)
    requires forall i :: 0 <= i < |ids| ==> ids[i] in rank
    ensures forall i :: 0 <= i < |ids| ==> rank[ids[i]] < m
  {
    if ids == [] then 0
    else
      var m := RankAbove(rank, ids[1..]);
      assert forall i :: 1 <= i < |ids| ==> ids[i] == ids[1..][i - 1];
      if rank[ids[0]] < m then m else rank[ids[0]] + 1
  }

  /**
   * Inserting a part under a fresh id, with a BOM of stored parts, keeps the store
   * id-acyclic when no stored BOM lists a missing part: the new part ranks above its
   * constituents, and no stored part can list it.
   */
  lemma InsertKeepsIdAcyclic(s: Store, p: Part)
    requires IdAcyclic(s) && BomsSound(s) && p.id !in s
    requires forall i :: 0 <= i < |Bom(p)| ==> Bom(p)[i].id in s
    ensures IdAcyclic(s[p.id := p])
  {
    var rank :| RankedBy(s, rank);
    var ids := IdsOf(Bom(p));
    var s' := s[p.id := p];
    var rank' := rank[p.id := RankAbove(rank, ids)];
    forall k, i | k in s' && 0 <= i < |Bom(s'[k])| && Bom(s'[k])[i].id in s'
      ensures rank'[Bom(s'[k])[i].id] < rank'[k]
    {
      if k == p.id {
        assert Bom(s'[k])[i].id == ids[i];
      } else {
        assert SoundBom(s, k, Bom(s[k]));
      }
    }
    assert RankedBy(s', rank');
  }

  /**
   * createPart keeps a consistent store id-acyclic. The fresh id and the validated BOM
   * do this, not the name-based cycle check: the new part lists only stored parts, and
   * no stored BOM can list an id that was not stored.
   */
  lemma CreateKeepsIdAcyclic(s: Store, name: string, t: PartType, parts: Option<seq<ConstituentPart>>, suffix: string)
    requires IdGenerator.IsRandomSuffix(suffix) && ConsistentStore(s) && IdAcyclic(s)
    ensures IdAcyclic(AfterCreate(s, CreateOutcome(s, name, t, parts, suffix)))
  {
    var r := CreateOutcome(s, name, t, parts, suffix);
    if r.Ok? {
      CreateSuccess(s, name, t, parts, suffix);
      if t == RAW {
        assert Bom(r.value) == [];
      }
      InsertKeepsIdAcyclic(s, r.value);
    }
  }

  /** A change of stock values alone keeps the store id-acyclic, under the same ranks. */
  lemma StockOnlyChangeKeepsIdAcyclic(s: Store, s': Store)
    requires StockOnlyChange(s, s') && IdAcyclic(s)
    ensures IdAcyclic(s')
  {
    var rank :| RankedBy(s, rank);
    forall k | k in s' ensures Bom(s'[k]) == Bom(s[k]) {
    }
    assert RankedBy(s', rank);
  }

  /** addInventory moves stock only, so it keeps any valid store id-acyclic. */
  lemma AddInventoryKeepsIdAcyclic(s: Store, partId: string, q: int)
    requires StoreValid(s) && IdAcyclic(s)
    ensures IdAcyclic(AddInventoryOutcome(s, partId, q).1)
  {
    var s' := AddInventoryOutcome(s, partId, q).1;
    if partId in s && s' != s {
      var p := s[partId];
      var d := if p.partType == RAW then s else Deduct(s, Bom(p), q);
      if p.partType == ASSEMBLED {
        assert FirstShortfall(s, Bom(p), q) == None;
        DeductEffect(s, Bom(p), q);
      }
      assert s' == SaveOutcome(d, Credited(p, q)).1;
      assert StockOnlyChange(s, d);
      assert StockOnlyChange(s, s');
      StockOnlyChangeKeepsIdAcyclic(s, s');
    }
  }

  // ---------------------------------------------------------------------
  // The service

  class PartService {
    /** The parts collection, by `_id`. */
    var store: Store

    ghost predicate Valid()
      reads this
    {
      StoreValid(store)
    }

    ghost predicate Consistent()
      reads this
    {
      ConsistentStore(store)
    }

    constructor (initial: Store)
      requires StoreValid(initial)
      ensures Valid() && store == initial
    {
      store := initial;
    }

    /** `save()` of a document. */
    method Save(doc: Part) returns (r: Outcome)
      requires Valid()
      modifies this
      ensures Valid()
      ensures (r, store) == SaveOutcome(old(store), doc)
    {
      if ValidRecord(doc) {
        store := store[doc.id := doc];
        r := Pass;
      } else {
        r := Fail(SchemaViolation);
      }
    }

    /** `save()` of a new document. */
    method Insert(doc: Part) returns (r: Outcome)
      requires Valid()
      modifies this
      ensures Valid()
      ensures (r, store) == InsertOutcome(old(store), doc)
    {
      if !ValidRecord(doc) {
        r := Fail(SchemaViolation);
      } else if doc.id in store {
        r := Fail(DuplicateKey);
      } else {
        store := store[doc.id := doc];
        r := Pass;
      }
    }

    /** `updateOne` with `$inc` on the stock. */
    method UpdateStock(id: string, delta: int)
      requires Valid()
      modifies this
      ensures Valid()
      ensures store == IncStock(old(store), id, delta)
    {
      if id in store {
        store := store[id := store[id].(quantityInStock := store[id].quantityInStock + delta)];
      }
    }

    /** `createPart`. */
    method CreatePart(name: string, partType: PartType, parts: Option<seq<ConstituentPart>>, suffix: string)
      returns (r: Result<Part>)
      requires Valid() && IsTrimmedName(name) && IdGenerator.IsRandomSuffix(suffix)
      modifies this
      ensures Valid()
      ensures r == CreateOutcome(old(store), name, partType, parts, suffix)
      ensures store == AfterCreate(old(store), r)
    {
      var checks := RunCreateChecks(name, partType, parts);
      if checks.Fail? {
        r := Err(CatchCreateError(checks.error));
      } else {
        ghost var before := store;
        var record := NewRecord(name, partType, parts, suffix);
        var saved := Insert(record);
        assert saved == InsertOutcome(before, record).0;
        assert saved.Pass? ==> store == before[record.id := record];
        assert saved.Fail? ==> store == before;
        r := if saved.Fail? then Err(CatchCreateError(saved.error)) else Ok(record);
      }
    }

    /** The validation and cycle check createPart runs for an assembly with a parts list. */
    method RunCreateChecks(name: string, partType: PartType, parts: Option<seq<ConstituentPart>>)
      returns (r: Outcome)
      ensures r == CreateChecks(store, name, partType, parts)
    {
      r := Pass;
      if partType == ASSEMBLED && parts.Some? {
        r := ValidateConstituentParts(store, parts.value);
        if r.Pass? {
          r := CheckCircularDependency(name, parts.value, {});
        }
      }
    }

    /** `addInventory`. */
    method AddInventory(partId: string, quantity: int) returns (r: Outcome)
      requires Valid() && quantity >= 1
      modifies this
      ensures Valid()
      ensures (r, store) == AddInventoryOutcome(old(store), partId, quantity)
      ensures old(Consistent()) ==> Consistent()
    {
      if old(Consistent()) {
        AddInventoryPreservesConsistency(store, partId, quantity);
      }
      if partId !in store {
        return Fail(PartNotFound(partId));
      }
      var part := store[partId];
      if part.partType == RAW {
        r := AddRawPartInventory(part, quantity);
      } else {
        r := AddAssembledPartInventory(part, quantity);
      }
    }

    /** `addRawPartInventory`: the stock of the loaded record plus the quantity, saved. */
    method AddRawPartInventory(part: Part, quantity: int) returns (r: Outcome)
      requires Valid() && part.id in store && store[part.id] == part
      modifies this
      ensures Valid()
      ensures (r, store) == SaveOutcome(old(store), Credited(part, quantity))
    {
      r := Save(part.(quantityInStock := part.quantityInStock + quantity));
    }

    /** `addAssembledPartInventory`: the check loop, the deduction loop, then the credit. */
    method AddAssembledPartInventory(part: Part, quantity: int) returns (r: Outcome)
      requires Valid() && part.id in store && store[part.id] == part && part.partType == ASSEMBLED
      modifies this
      ensures Valid()
      ensures (r, store) == AssembledOutcome(old(store), part, quantity)
    {
      var bom := part.parts.value;
      var shortfall := CheckConstituents(bom, quantity);
      if shortfall.Some? {
        return Fail(shortfall.value);
      }
      DeductConstituents(bom, quantity);
      r := Save(part.(quantityInStock := part.quantityInStock + quantity));
    }

    /** The check loop: each entry's part is read and compared with quantity times `quantity`. */
    method CheckConstituents(bom: seq<ConstituentPart>, quantity: int) returns (r: Option<Error>)
      ensures r == FirstShortfall(store, bom, quantity)
    {
      for i := 0 to |bom|
        invariant FirstShortfall(store, bom, quantity) == FirstShortfall(store, bom[i..], quantity)
      {
        var constituent := bom[i];
        var requiredQuantity := constituent.quantity * quantity;
        assert bom[i..][0] == constituent && bom[i..][1..] == bom[i + 1..];
        if constituent.id !in store {
          return Some(ConstituentNotFound(constituent.id));
        }
        if store[constituent.id].quantityInStock < requiredQuantity {
          return Some(InsufficientInventory(constituent.id));
        }
      }
      assert bom[|bom|..] == [];
      r := None;
    }

    /** The deduction loop: one `$inc` per entry, in BOM order. */
    method DeductConstituents(bom: seq<ConstituentPart>, quantity: int)
      requires Valid()
      modifies this
      ensures Valid()
      ensures store == Deduct(old(store), bom, quantity)
    {
      for i := 0 to |bom|
        invariant Valid()
        invariant Deduct(old(store), bom, quantity) == Deduct(store, bom[i..], quantity)
      {
        var constituent := bom[i];
        var requiredQuantity := constituent.quantity * quantity;
        assert bom[i..][0] == constituent && bom[i..][1..] == bom[i + 1..];
        UpdateStock(constituent.id, -requiredQuantity);
      }
      assert bom[|bom|..] == [];
    }

    /** `checkCircularDependency`, with the visited set passed by value (each call works on its own copy). */
    method CheckCircularDependency(partName: string, parts: seq<ConstituentPart>, visited: set<string>)
      returns (r: Outcome)
      ensures r == CircularCheck(store, partName, parts, visited)
      decreases StoreNames(store) + {partName} - visited
    {
      if partName in visited {
        return Fail(CircularDependency);
      }
      var path := visited + {partName};
      for i := 0 to |parts|
        invariant CheckChildren(store, parts, path) == CheckChildren(store, parts[i..], path)
      {
        assert parts[i..][0] == parts[i] && parts[i..][1..] == parts[i + 1..];
        var id := parts[i].id;
        if id in store && store[id].partType == ASSEMBLED && store[id].parts.Some? {
          var child := store[id];
          assert child.name in StoreNames(store);
          var sub := CheckCircularDependency(child.name, child.parts.value, path);
          if sub.Fail? {
            return sub;
          }
        }
      }
      assert parts[|parts|..] == [];
      r := Pass;
    }
  }
}
