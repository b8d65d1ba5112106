/** The two database tables the repository code reads and writes, and the
    transaction object through which it does so. */
module Tables {
  import opened Json

  /** `NaiveDateTime`, as an abstract instant. */
  type Timestamp = int

  /** A row of `tenants`; `id` is the primary key. */
  datatype Tenant = Tenant(id: string, name: string, createdAt: Timestamp)

  /** A row of `elements`; `(tid, id)` is the primary key and `tid` refers
      to a tenant. */
  datatype Element = Element(id: string, tid: string, data: JsonObject, createdAt: Timestamp)

  /** `(tid, id)` */
  type ElementKey = (string, string)

  /** The state the database and the repository code keep together: each
      table indexed by its primary key, tenant names unique, and every
      element belonging to an existing tenant. */
  ghost predicate Consistent(tenants: map<string, Tenant>, elements: map<ElementKey, Element>)
  {
    && (forall tid :: tid in tenants ==> tenants[tid].id == tid)
    && (forall a, b :: a in tenants && b in tenants && tenants[a].name == tenants[b].name ==> a == b)
    && (forall k :: k in elements ==> elements[k].tid == k.0 && elements[k].id == k.1 && k.0 in tenants)
  }

  /** `WHERE tid = $1` on the primary keys of `elements`. */
  function ElementKeysOf(elements: map<ElementKey, Element>, tid: string): set<ElementKey>
  {
    set k | k in elements && k.0 == tid
  }

  /** The rows of `elements` that belong to tenant `tid`. */
  function ElementRowsOf(elements: map<ElementKey, Element>, tid: string): set<Element>
  {
    set k | k in elements && k.0 == tid :: elements[k]
  }

  /** The rows stored under `keys`. */
  function Image<K, V>(m: map<K, V>, keys: set<K>): set<V>
    requires keys <= m.Keys
  {
    set k | k in keys :: m[k]
  }

  /** Selecting rows by their primary keys yields as many rows as keys:
      distinct keys hold distinct rows. */
  lemma {:induction false} RowsCount<K, V>(m: map<K, V>, keys: set<K>, key: V -> K)
    requires keys <= m.Keys
    requires forall k :: k in keys ==> key(m[k]) == k
    ensures |Image(m, keys)| == |keys|
    decreases |keys|
  {
    if keys != {} {
      var k0 :| k0 in keys;
      var rest := keys - {k0};
      RowsCount(m, rest, key);
      assert Image(m, keys) == Image(m, rest) + {m[k0]};
      assert m[k0] !in Image(m, rest);
    }
  }

  /** A tenant's elements number as many as their keys. */
  lemma ElementRowsCount(tenants: map<string, Tenant>, elements: map<ElementKey, Element>, tid: string)
    requires Consistent(tenants, elements)
    ensures |ElementRowsOf(elements, tid)| == |ElementKeysOf(elements, tid)|
  {
    var keys := ElementKeysOf(elements, tid);
    var key := (e: Element) => (e.tid, e.id);
    RowsCount(elements, keys, key);
    assert ElementRowsOf(elements, tid) == Image(elements, keys);
  }

  /** In a consistent store, the `WHERE tid = $1` key scan is empty exactly
      when no stored element row carries `tid`. */
  lemma NoElementKeysIffNoRows(tenants: map<string, Tenant>, elements: map<ElementKey, Element>, tid: string)
    requires Consistent(tenants, elements)
    ensures ElementKeysOf(elements, tid) == {} <==> !exists e :: e in elements.Values && e.tid == tid
  {
    if e :| e in elements.Values && e.tid == tid {
      var k :| k in elements && elements[k] == e;
      assert k in ElementKeysOf(elements, tid);
    }
    if k :| k in ElementKeysOf(elements, tid) {
      assert elements[k] in elements.Values;
    }
  }

  /** The open transaction (`Tx`) with the tables as it sees them. `now`
      is the `NOW()` of the transaction, the same for every statement. */
  class Tx {
    var tenants: map<string, Tenant>
    var elements: map<ElementKey, Element>
    const now: Timestamp

    ghost predicate Valid()
      reads this
    {
      Consistent(tenants, elements)
    }

    /** `db.begin()`: a transaction over the current contents. */
    constructor Begin(tenants: map<string, Tenant>, elements: map<ElementKey, Element>, now: Timestamp)
      requires Consistent(tenants, elements)
      ensures Valid()
      ensures this.tenants == tenants && this.elements == elements && this.now == now
    {
      this.tenants := tenants;
      this.elements := elements;
      this.now := now;
    }
  }
}
