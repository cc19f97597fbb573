/**
 The in-memory product store (InMemoryProductRepository): a map from product id
 to product, changed in place by `save` and `deleteById`. The map is modelled
 sequentially; see README for the concurrency it leaves out.
 */
module Repository {
  import opened Wrappers
  import opened Domain

  /** Every stored product sits under its own id. */
  ghost predicate KeyedById(table: map<Uuid, Product>) {
    forall k :: k in table ==> table[k].id == Some(k)
  }

  class InMemoryProductRepository {
    var products: map<Uuid, Product>

    ghost predicate Valid()
      reads this
    {
      KeyedById(products)
    }

    constructor ()
      ensures Valid()
      ensures products == map[]
    {
      products := map[];
    }

    /**
     Upsert under the product's id. A product without an id makes the Java map
     throw, so callers must have set one.
     */
    method Save(product: Product) returns (saved: Product)
      requires Valid()
      requires product.id.Some?
      modifies this
      ensures Valid()
      ensures saved == product
      ensures products == old(products)[product.id.value := product]
    {
      products := products[product.id.value := product];
      saved := product;
    }

    /**
     Saves each product of `batch` in turn; with new, distinct ids the table
     grows by exactly the batch's length.
     */
    method SaveEach(batch: seq<Product>)
      requires Valid()
      requires forall i :: 0 <= i < |batch| ==> batch[i].id.Some?
      modifies this
      ensures Valid()
      ensures products == SaveAll(old(products), batch)
      ensures FreshDistinctIds(old(products), batch) ==> |products| == |old(products)| + |batch|
    {
      var i := 0;
      while i < |batch|
        invariant 0 <= i <= |batch|
        invariant Valid()
        invariant SaveAll(old(products), batch) == SaveAll(products, batch[i..])
      {
        var _ := Save(batch[i]);
        assert batch[i..][1..] == batch[i + 1..];
        i := i + 1;
      }
      if FreshDistinctIds(old(products), batch) {
        SaveAllCardinality(old(products), batch);
      }
    }

    method FindById(id: Uuid) returns (found: Option<Product>)
      requires Valid()
      ensures found.Some? <==> id in products
      ensures found.Some? ==> found.value == products[id] && found.value.id == Some(id)
    {
      found := if id in products then Some(products[id]) else None;
    }

    /**
     A snapshot of every stored product, in an order the map chooses: one entry
     per key, no id twice, nothing left out.
     */
    method FindAll() returns (all: seq<Product>)
      requires Valid()
      ensures |all| == |products|
      ensures forall i :: 0 <= i < |all| ==>
        all[i].id.Some? && all[i].id.value in products && products[all[i].id.value] == all[i]
      ensures forall i, j :: 0 <= i < j < |all| ==> all[i].id != all[j].id
      ensures forall k :: k in products ==> products[k] in all
    {
      all := [];
      ghost var keys: seq<Uuid> := [];
      var remaining := products.Keys;
      while remaining != {}
        invariant remaining <= products.Keys
        invariant |keys| == |all| && |keys| + |remaining| == |products|
        invariant forall i :: 0 <= i < |keys| ==> keys[i] in products && keys[i] !in remaining
        invariant forall i :: 0 <= i < |keys| ==> all[i] == products[keys[i]]
        invariant forall i, j :: 0 <= i < j < |keys| ==> keys[i] != keys[j]
        invariant forall k :: k in products && k !in remaining ==> k in keys
        decreases |remaining|
      {
        var k :| k in remaining;
        all := all + [products[k]];
        keys := keys + [k];
        remaining := remaining - {k};
      }
      forall k | k in products
        ensures products[k] in all
      {
        var i :| 0 <= i < |keys| && keys[i] == k;
        assert all[i] == products[k];
      }
    }

    /** Removes the entry for `id`, if any, and says whether there was one. */
    method DeleteById(id: Uuid) returns (removed: bool)
      requires Valid()
      modifies this
      ensures Valid()
      ensures removed <==> id in old(products)
      ensures products == old(products) - {id}
      ensures removed ==> |products| == |old(products)| - 1
      ensures !removed ==> products == old(products)
    {
      removed := id in products;
      products := products - {id};
    }

    method ExistsById(id: Uuid) returns (present: bool)
      ensures present <==> id in products
    {
      present := id in products;
    }
  }

  /** The table after saving each of `batch` in turn, as successive `Save` calls leave it. */
  function SaveAll(table: map<Uuid, Product>, batch: seq<Product>): map<Uuid, Product>
    requires forall i :: 0 <= i < |batch| ==> batch[i].id.Some?
    decreases |batch|
  {
    if batch == [] then table
    else SaveAll(table[batch[0].id.value := batch[0]], batch[1..])
  }

  /** The ids of `batch` are set, pairwise different and not yet stored. */
  ghost predicate FreshDistinctIds(table: map<Uuid, Product>, batch: seq<Product>) {
    && (forall i :: 0 <= i < |batch| ==> batch[i].id.Some? && batch[i].id.value !in table)
    && (forall i, j :: 0 <= i < j < |batch| ==> batch[i].id != batch[j].id)
  }

  /** Saving N products with new, distinct ids grows the table by exactly N and keeps it keyed by id. */
  lemma {:induction false} SaveAllCardinality(table: map<Uuid, Product>, batch: seq<Product>)
    requires FreshDistinctIds(table, batch)
    requires KeyedById(table)
    ensures |SaveAll(table, batch)| == |table| + |batch|
    ensures KeyedById(SaveAll(table, batch))
    ensures forall i :: 0 <= i < |batch| ==> batch[i].id.value in SaveAll(table, batch)
    ensures forall i :: 0 <= i < |batch| ==> SaveAll(table, batch)[batch[i].id.value] == batch[i]
    decreases |batch|
  {
    if batch != [] {
      var next := table[batch[0].id.value := batch[0]];
      assert FreshDistinctIds(next, batch[1..]) by {
        forall i | 0 <= i < |batch[1..]|
          ensures batch[1..][i].id.value !in next
        {
          assert batch[1..][i] == batch[i + 1];
        }
      }
      SaveAllCardinality(next, batch[1..]);
      assert SaveAll(table, batch) == SaveAll(next, batch[1..]);
      forall i | 0 <= i < |batch|
        ensures batch[i].id.value in SaveAll(table, batch)
        ensures SaveAll(table, batch)[batch[i].id.value] == batch[i]
      {
        if i > 0 {
          assert batch[1..][i - 1] == batch[i];
        } else {
          SaveAllKeeps(next, batch[1..], batch[0].id.value);
        }
      }
    }
  }

  /** Saving products under other ids leaves the entry for `k` as it was. */
  lemma {:induction false} SaveAllKeeps(table: map<Uuid, Product>, batch: seq<Product>, k: Uuid)
    requires forall i :: 0 <= i < |batch| ==> batch[i].id.Some? && batch[i].id.value != k
    requires k in table
    ensures k in SaveAll(table, batch) && SaveAll(table, batch)[k] == table[k]
    decreases |batch|
  {
    if batch != [] {
      SaveAllKeeps(table[batch[0].id.value := batch[0]], batch[1..], k);
    }
  }
}
