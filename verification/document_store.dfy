/**
 * The product index as a key/value store: single writes and bulk writes, both keyed by
 * the product's `id`, so re-ingesting an id overwrites rather than duplicates.
 */
module DocumentStore {
  import opened Wrappers
  import opened Catalog

  const IndexName: string := "products"

  /** The index's documents by storage key (`_id`). */
  type Store = map<string, Product>

  /** The key a write lands under: the product's own `id`, or one the store generates when it has none. */
  function KeyOf(p: Product, autoId: string): string {
    p.id.GetOr(autoId)
  }

  /** `index({ id: product.id, body: product })`: an upsert keyed by the product's id. */
  function Put(st: Store, p: Product, autoId: string): (st': Store)
    ensures st'.Keys == st.Keys + {KeyOf(p, autoId)}
    ensures st'[KeyOf(p, autoId)] == p
    ensures forall k :: k in st && k != KeyOf(p, autoId) ==> st'[k] == st[k]
  {
    st[KeyOf(p, autoId) := p]
  }

  /** Every stored document that carries an `id` is stored under that id. */
  predicate IdKeyed(st: Store) {
    forall k :: k in st && st[k].id.Some? ==> st[k].id.value == k
  }

  /** Every write keeps `IdKeyed`, so a store built by writes from empty satisfies it. */
  lemma PutKeepsIdKeyed(st: Store, p: Product, autoId: string)
    requires IdKeyed(st)
    ensures IdKeyed(Put(st, p, autoId))
  {
  }

  /** One line of a bulk request: an `index` action naming the target, or the document that follows it. */
  datatype BulkLine =
    | IndexAction(index: string, id: Option<string>)
    | Document(doc: Product)

  /** `products.flatMap(p => [{ index: { _index, _id: p.id } }, p])`. */
  function BulkBody(ps: seq<Product>): (body: seq<BulkLine>)
    ensures |body| == 2 * |ps|
    ensures forall i :: 0 <= i < |ps| ==> body[2 * i] == IndexAction(IndexName, ps[i].id)
    ensures forall i :: 0 <= i < |ps| ==> body[2 * i + 1] == Document(ps[i])
  {
    if ps == [] then []
    else
      var rest := BulkBody(ps[1..]);
      assert forall i :: 1 <= i < |ps| ==> ps[1..][i - 1] == ps[i];
      [IndexAction(IndexName, ps[0].id), Document(ps[0])] + rest
  }

  /**
   * How the store executes a bulk body: each action/document pair is one item, numbered
   * from `n`; an item the store rejects is skipped, the others are written (no batch
   * atomicity); an item whose action has no `_id` gets a generated one.
   */
  function ApplyBulk(st: Store, body: seq<BulkLine>, n: nat, accepted: nat -> bool, autoId: nat -> string): Store
    decreases |body|
  {
    if |body| < 2 || !body[0].IndexAction? || !body[1].Document? then st
    else
      var st' := if accepted(n) then st[body[0].id.GetOr(autoId(n)) := body[1].doc] else st;
      ApplyBulk(st', body[2..], n + 1, accepted, autoId)
  }

  /** Reference: the accepted products written one after another with `Put`. */
  function PutAll(st: Store, ps: seq<Product>, n: nat, accepted: nat -> bool, autoId: nat -> string): Store
    decreases |ps|
  {
    if ps == [] then st
    else
      var st' := if accepted(n) then Put(st, ps[0], autoId(n)) else st;
      PutAll(st', ps[1..], n + 1, accepted, autoId)
  }

  /** A bulk write of `ps` is the same as writing the accepted products one by one, in order. */
  lemma {:induction false} BulkIsSequentialPut(st: Store, ps: seq<Product>, n: nat, accepted: nat -> bool, autoId: nat -> string)
    ensures ApplyBulk(st, BulkBody(ps), n, accepted, autoId) == PutAll(st, ps, n, accepted, autoId)
    decreases |ps|
  {
    if ps != [] {
      var body := BulkBody(ps);
      assert body[2..] == BulkBody(ps[1..]);
      var st' := if accepted(n) then Put(st, ps[0], autoId(n)) else st;
      BulkIsSequentialPut(st', ps[1..], n + 1, accepted, autoId);
    }
  }

  /** Pairwise distinct ids, all present. */
  predicate DistinctIds(ps: seq<Product>) {
    && (forall i :: 0 <= i < |ps| ==> ps[i].id.Some?)
    && (forall i, j :: 0 <= i < j < |ps| ==> ps[i].id != ps[j].id)
  }

  function IdSet(ps: seq<Product>): set<string>
    requires forall i :: 0 <= i < |ps| ==> ps[i].id.Some?
  {
    set i | 0 <= i < |ps| :: ps[i].id.value
  }

  /** Dropping the first product keeps the ids distinct, and its id is not among the rest. */
  lemma DistinctTail(ps: seq<Product>)
    requires ps != [] && DistinctIds(ps)
    ensures DistinctIds(ps[1..])
    ensures IdSet(ps) == {ps[0].id.value} + IdSet(ps[1..])
    ensures ps[0].id.value !in IdSet(ps[1..])
  {
    var tail := ps[1..];
    assert forall i :: 0 <= i < |tail| ==> tail[i] == ps[i + 1];
    forall k | k in IdSet(ps) ensures k in {ps[0].id.value} + IdSet(tail) {
      var i :| 0 <= i < |ps| && ps[i].id.value == k;
      if i > 0 { assert tail[i - 1] == ps[i]; }
    }
    forall i | 0 <= i < |tail| ensures tail[i].id.value != ps[0].id.value {
      assert tail[i] == ps[i + 1];
    }
  }

  /**
   * Writing products with distinct ids, all accepted, stores each product under its id
   * and leaves every other key as it was: one document per product.
   */
  lemma {:induction false} PutAllDistinct(st: Store, ps: seq<Product>, n: nat, autoId: nat -> string)
    requires DistinctIds(ps)
    ensures var st' := PutAll(st, ps, n, _ => true, autoId);
            && st'.Keys == st.Keys + IdSet(ps)
            && (forall i :: 0 <= i < |ps| ==> st'[ps[i].id.value] == ps[i])
            && (forall k :: k in st && k !in IdSet(ps) ==> st'[k] == st[k])
    decreases |ps|
  {
    if ps != [] {
      var st1 := Put(st, ps[0], autoId(n));
      var tail := ps[1..];
      DistinctTail(ps);
      PutAllDistinct(st1, tail, n + 1, autoId);
      var st' := PutAll(st1, tail, n + 1, _ => true, autoId);
      forall i | 0 <= i < |ps| ensures st'[ps[i].id.value] == ps[i] {
        if i > 0 { assert tail[i - 1] == ps[i]; }
      }
    }
  }
}
