/** The integration tests of the element and tenant endpoints, replayed
    against the model: each method runs the same sequence of operations
    and asserts the outcomes the tests expect. */
module Scenarios {
  import opened Wrappers
  import opened Json
  import opened Rest
  import opened Tables
  import opened Utils
  import Strings
  import Tenants
  import Elements
  import ElementsApi

  /** Adding a row under a fresh key and deleting that key restores the table. */
  lemma AddThenRemove<K, V>(m: map<K, V>, k: K, v: V)
    requires k !in m
    ensures m[k := v] - {k} == m
  {
  }

  /** Creates a new tenant, which has no elements yet. */
  method CreateTenant(tx: Tx, tid: string, name: string)
    requires tx.Valid()
    requires tid !in tx.tenants && !Tenants.NameTaken(tx.tenants, name)
    modifies tx
    ensures tx.Valid()
    ensures tx.tenants == old(tx.tenants)[tid := Tenant(tid, name, tx.now)]
    ensures tx.elements == old(tx.elements)
    ensures ElementKeysOf(tx.elements, tid) == {}
  {
    assert ElementKeysOf(tx.elements, tid) == {};
    var tenant := Tenants.Insert(tx, Tenants.TenantPayload(tid, name));
    assert tenant.Success?;
  }

  /** Posts an element whose id is free under an existing tenant. */
  method PostElement(tx: Tx, tid: string, form: Elements.ElementPayload, random: nat) returns (key: ElementKey)
    requires tx.Valid() && Elements.ValidPayload(form) && random < Strings.U64_BOUND
    requires tid in tx.tenants && CREATED_AT !in form.data
    requires (tid, Elements.NewId(form, random)) !in tx.elements
    modifies tx
    ensures tx.Valid()
    ensures key == (tid, Elements.NewId(form, random))
    ensures tx.elements == old(tx.elements)[key := Element(key.1, tid, form.data, tx.now)]
    ensures tx.tenants == old(tx.tenants)
  {
    var created := ElementsApi.Create(tx, tid, form, random);
    assert created.Success? && created.value.status == ElementsApi.CREATED;
    key := (tid, Elements.NewId(form, random));
  }

  /** A tenant holding an element cannot be deleted; forced, the delete
      takes the element and the tenant, two rows, and leaves the tables as
      they were before the tenant was created. */
  method DeleteTenantWithElements(tx: Tx, tid: string, name: string, data: JsonObject, random: nat)
    requires tx.Valid()
    requires tid !in tx.tenants && !Tenants.NameTaken(tx.tenants, name)
    requires CREATED_AT !in data && random < Strings.U64_BOUND
    modifies tx
    ensures tx.tenants == old(tx.tenants) && tx.elements == old(tx.elements)
  {
    ghost var tenants0 := tx.tenants;
    CreateTenant(tx, tid, name);
    ghost var tenants1 := tx.tenants;
    ghost var elements0 := tx.elements;
    var key := PostElement(tx, tid, Elements.ElementPayload(None, data), random);
    ghost var elements1 := tx.elements;
    assert key !in elements0 by {
      assert key !in ElementKeysOf(elements0, tid);
    }
    assert ElementKeysOf(elements1, tid) == {key};
    var refused := Tenants.Delete(tx, tid, false);
    assert refused == Failure(StaticValidation("cannot delete tenant with elements"));
    assert |{key}| == 1;
    var deleted := Tenants.Delete(tx, tid, true);
    assert deleted == Success(2);
    assert tx.elements == elements1 - {key};
    AddThenRemove(elements0, key, elements1[key]);
    assert tx.tenants == tenants1 - {tid};
    AddThenRemove(tenants0, tid, tenants1[tid]);
  }

  /** A client-chosen id is taken once per tenant: the second post under
      the same tenant is refused, the same id under another tenant is not. */
  method PostElementAlreadyExists(tx: Tx, tid: string, otherTid: string, id: string, data: JsonObject)
    requires tx.Valid()
    requires tid in tx.tenants && otherTid in tx.tenants && tid != otherTid
    requires (tid, id) !in tx.elements && (otherTid, id) !in tx.elements
    requires Elements.ValidElementId(id) && CREATED_AT !in data
    modifies tx
    ensures (tid, id) in tx.elements && (otherTid, id) in tx.elements
  {
    var form := Elements.ElementPayload(Some(id), data);
    var _ := PostElement(tx, tid, form, 0);
    var again := ElementsApi.Create(tx, tid, form, 0);
    assert again == Failure(ResourceAlreadyExists("element", "id", id));
    var _ := PostElement(tx, otherTid, form, 0);
  }

  /** Deleting an element answers 204, and reading it afterwards 404. */
  method DeleteThenRead(tx: Tx, tid: string, id: string, data: JsonObject)
    requires tx.Valid()
    requires tid in tx.tenants && (tid, id) !in tx.elements
    requires Elements.ValidElementId(id) && CREATED_AT !in data
    modifies tx
    ensures tx.elements == old(tx.elements) && tx.tenants == old(tx.tenants)
  {
    ghost var elements0 := tx.elements;
    var key := PostElement(tx, tid, Elements.ElementPayload(Some(id), data), 0);
    var deleted := ElementsApi.Delete(tx, tid, id);
    assert deleted == Success(ElementsApi.Response(ElementsApi.NO_CONTENT, None));
    assert tx.elements == elements0[key := Element(id, tid, data, tx.now)] - {key};
    AddThenRemove(elements0, key, Element(id, tid, data, tx.now));
    var read := ElementsApi.Read(tx, tid, id);
    assert read == Success(ElementsApi.Response(ElementsApi.NOT_FOUND, None));
  }
}
