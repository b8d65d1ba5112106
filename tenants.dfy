/** src/tenants/model.rs: the tenant payload rules and the tenant
    repository, each operation running inside an open transaction. */
module Tenants {
  import opened Wrappers
  import opened Strings
  import opened Sql
  import opened Validator
  import opened Query
  import opened Rest
  import opened Tables

  // ----- Payload rules -----

  /** `ID_VALID`, `^[a-z][a-z0-9\-]+$`: a lower-case ASCII letter followed
      by at least one lower-case letter, digit or `-`. */
  predicate IdPatternMatches(id: string)
  {
    && |id| >= 2
    && 'a' <= id[0] <= 'z'
    && forall i :: 1 <= i < |id| ==> 'a' <= id[i] <= 'z' || IsDigit(id[i]) || id[i] == '-'
  }

  const FORBIDDEN_ID: ValidationError := ValidationError("forbidden_id", Some("Forbidden tenant id."))

  const INVALID_ID: ValidationError :=
    ValidationError("invalid_id", Some("tenant id can only contains letters in lower case, numbers or the \"-\" symbol"))

  /** `validate_forbidden_list`: the ids of the top-level endpoints cannot
      be tenant ids, since tenant ids are path segments too. */
  function ValidateForbiddenList(tenantId: string): (r: Result<(), ValidationError>)
    ensures r.Failure? <==> tenantId == "tenants" || tenantId == "health"
    ensures r.Failure? ==> r.error == FORBIDDEN_ID
  {
    if tenantId == "tenants" || tenantId == "health" then Failure(FORBIDDEN_ID) else Success(())
  }

  datatype TenantPayload = TenantPayload(id: string, name: string)

  datatype TenantPayloadEdition = TenantPayloadEdition(name: string)

  /** The rules on `id`, in declaration order: length, forbidden list, pattern. */
  function IdErrors(id: string): seq<ValidationError>
  {
    var forbidden := ValidateForbiddenList(id);
    CheckLength(id, 3, 40)
      + (if forbidden.Failure? then [forbidden.error] else [])
      + (if IdPatternMatches(id) then [] else [INVALID_ID])
  }

  /** `TenantPayload::validate` */
  function ValidatePayload(p: TenantPayload): FieldErrors
  {
    AddField(AddField(map[], "id", IdErrors(p.id)), "name", CheckLength(p.name, 3, 80))
  }

  /** `TenantPayloadEdition::validate` */
  function ValidateEdition(p: TenantPayloadEdition): FieldErrors
  {
    AddField(map[], "name", CheckLength(p.name, 3, 80))
  }

  predicate ValidTenantId(id: string)
  {
    3 <= |id| <= 40 && id != "tenants" && id != "health" && IdPatternMatches(id)
  }

  predicate ValidName(name: string)
  {
    3 <= |name| <= 80
  }

  /** A payload passes exactly when its id is a valid tenant id and its
      name has 3 to 80 characters; each failing field is reported under
      its own name and no other field is. */
  lemma ValidatePayloadAccepts(p: TenantPayload)
    ensures ValidatePayload(p) == map[] <==> ValidTenantId(p.id) && ValidName(p.name)
    ensures "id" in ValidatePayload(p) <==> !ValidTenantId(p.id)
    ensures "name" in ValidatePayload(p) <==> !ValidName(p.name)
    ensures forall f :: f in ValidatePayload(p) ==> f == "id" || f == "name"
  {
    assert IdErrors(p.id) == [] <==> ValidTenantId(p.id);
    if !ValidTenantId(p.id) {
      assert "id" in ValidatePayload(p);
    }
  }

  lemma ValidateEditionAccepts(p: TenantPayloadEdition)
    ensures ValidateEdition(p) == map[] <==> ValidName(p.name)
    ensures forall f :: f in ValidateEdition(p) ==> f == "name"
  {
    if !ValidName(p.name) {
      assert "name" in ValidateEdition(p);
    }
  }

  /** The reserved ids pass the length and pattern rules, so the forbidden
      list alone is what keeps them out. */
  lemma ReservedIdsNeedForbiddenList(name: string)
    requires ValidName(name)
    ensures ValidatePayload(TenantPayload("tenants", name)) == map["id" := [FORBIDDEN_ID]]
    ensures ValidatePayload(TenantPayload("health", name)) == map["id" := [FORBIDDEN_ID]]
  {
    assert IdPatternMatches("tenants") && IdErrors("tenants") == [FORBIDDEN_ID];
    assert IdPatternMatches("health") && IdErrors("health") == [FORBIDDEN_ID];
  }

  // ----- Row predicates -----

  /** `x ILIKE '%q%'`, the needle taken literally. */
  predicate ILikeContains(x: string, q: string)
  {
    Contains(AsciiLower(x), AsciiLower(q))
  }

  /** `WHERE id ILIKE $1 OR name ILIKE $1`, or no filter without `q`. */
  predicate Matches(t: Tenant, q: Option<string>)
  {
    q.None? || ILikeContains(t.id, q.value) || ILikeContains(t.name, q.value)
  }

  /** The rows of `tenants` a search selects. */
  function MatchingRows(tenants: map<string, Tenant>, q: Option<string>): (rows: set<Tenant>)
    ensures forall t :: t in rows <==> t in tenants.Values && Matches(t, q)
  {
    set tid | tid in tenants && Matches(tenants[tid], q) :: tenants[tid]
  }

  /** Some row of `tenants` has this name. */
  predicate NameTaken(tenants: map<string, Tenant>, name: string)
  {
    exists tid :: tid in tenants && tenants[tid].name == name
  }

  /** Without a search every row is selected: as many as the table holds. */
  lemma {:induction false} MatchingAllRows(tenants: map<string, Tenant>, elements: map<ElementKey, Element>)
    requires Consistent(tenants, elements)
    ensures MatchingRows(tenants, None) == tenants.Values
    ensures |MatchingRows(tenants, None)| == |tenants|
  {
    RowsCount(tenants, tenants.Keys, (t: Tenant) => t.id);
    assert MatchingRows(tenants, None) == Image(tenants, tenants.Keys);
  }

  // ----- Ordering -----

  const SORT_FIELDS: seq<string> := ["id", "name", "created_at"]

  const DEFAULT_SORT: string := "id"

  /** The value of a sortable column; `id` for any other name. */
  function SortKey(t: Tenant, field: string): Key
  {
    if field == "name" then Text(t.name)
    else if field == "created_at" then Time(t.createdAt)
    else Text(t.id)
  }

  /** A row's values of the `ORDER BY` columns, in order. */
  function OrderKeys(order: seq<Directive>): Tenant -> seq<Key>
  {
    t => seq(|order|, i requires 0 <= i < |order| => SortKey(t, order[i].field))
  }

  /** The `ORDER BY` a search applies. */
  function Order(query: QuerySearch): (order: seq<Directive>)
    ensures forall d :: d in order ==> d.field in SORT_FIELDS
  {
    OrderByColumns(query, SORT_FIELDS, DEFAULT_SORT);
    OrderBy(query, SORT_FIELDS, DEFAULT_SORT)
  }

  // ----- Repository -----

  /** `Tenant::exists`: whether a row has this id. */
  method Exists(tx: Tx, tid: string) returns (b: bool)
    requires tx.Valid()
    ensures b <==> exists t :: t in tx.tenants.Values && t.id == tid
  {
    b := tid in tx.tenants;
    if b {
      assert tx.tenants[tid] in tx.tenants.Values;
    }
  }

  /** `Tenant::exists_or_fail`: the guard of every tenant-scoped operation. */
  method ExistsOrFail(tx: Tx, tid: string) returns (r: Result<(), AppError>)
    requires tx.Valid()
    ensures r.Success? <==> tid in tx.tenants
    ensures r.Failure? ==> r.error == ResourceNotFound("tenant", "id", tid)
  {
    var tenantExists := Exists(tx, tid);
    if !tenantExists {
      return Failure(ResourceNotFound("tenant", "id", tid));
    }
    r := Success(());
  }

  /** `Tenant::get_id_by_name`: the id of the tenant with this name, if
      any (names are unique, so there is at most one). */
  method GetIdByName(tx: Tx, name: string) returns (id: Option<string>)
    requires tx.Valid()
    ensures id.Some? <==> exists t :: t in tx.tenants.Values && t.name == name
    ensures id.Some? ==> id.value in tx.tenants && tx.tenants[id.value].name == name
  {
    if tid :| tid in tx.tenants && tx.tenants[tid].name == name {
      assert tx.tenants[tid] in tx.tenants.Values;
      id := Some(tid);
    } else {
      id := None;
    }
  }

  /** `Tenant::get` */
  method Get(tx: Tx, tid: string) returns (tenant: Option<Tenant>)
    requires tx.Valid()
    ensures tenant.Some? <==> exists t :: t in tx.tenants.Values && t.id == tid
    ensures tenant.Some? ==> tenant.value in tx.tenants.Values && tenant.value.id == tid
  {
    if tid in tx.tenants {
      tenant := Some(tx.tenants[tid]);
    } else {
      tenant := None;
    }
  }

  /** `Tenant::insert`: a new tenant, unless its id or its name is taken;
      the id is checked first. */
  method Insert(tx: Tx, form: TenantPayload) returns (r: Result<Tenant, AppError>)
    requires tx.Valid()
    modifies tx
    ensures tx.Valid()
    ensures form.id in old(tx.tenants) ==>
      r == Failure(ResourceAlreadyExists("tenant", "id", form.id)) && unchanged(tx)
    ensures form.id !in old(tx.tenants) && NameTaken(old(tx.tenants), form.name) ==>
      r == Failure(ResourceAlreadyExists("tenant", "name", form.name)) && unchanged(tx)
    ensures form.id !in old(tx.tenants) && !NameTaken(old(tx.tenants), form.name) ==>
      && r == Success(Tenant(form.id, form.name, tx.now))
      && tx.tenants == old(tx.tenants)[form.id := r.value]
      && tx.elements == old(tx.elements)
  {
    var idTaken := Exists(tx, form.id);
    if idTaken {
      return Failure(ResourceAlreadyExists("tenant", "id", form.id));
    }
    var id := GetIdByName(tx, form.name);
    if id.Some? {
      return Failure(ResourceAlreadyExists("tenant", "name", form.name));
    }
    var tenant := Tenant(form.id, form.name, tx.now);
    tx.tenants := tx.tenants[form.id := tenant];
    r := Success(tenant);
  }

  /** The message of a rename onto a name another tenant holds. */
  function NameTakenMessage(name: string, duplicatedId: string): string
  {
    "name \"" + name + "\" already taken by tenant with id \"" + duplicatedId + "\""
  }

  /** `Tenant::save`: renames tenant `tid`, or creates it when missing,
      unless another tenant holds the name; a renamed tenant keeps its
      creation time. */
  method Save(tx: Tx, tid: string, form: TenantPayloadEdition) returns (r: Result<Tenant, AppError>)
    requires tx.Valid()
    modifies tx
    ensures tx.Valid()
    ensures r.Failure? ==> unchanged(tx)
    ensures r.Failure? ==> exists d ::
      && d in old(tx.tenants) && d != tid && old(tx.tenants)[d].name == form.name
      && r.error == Validation(Some("tenant_name_exists"), NameTakenMessage(form.name, d))
    ensures r.Failure? <==> exists d :: d in old(tx.tenants) && d != tid && old(tx.tenants)[d].name == form.name
    ensures r.Success? ==>
      && r.value == Tenant(tid, form.name, if tid in old(tx.tenants) then old(tx.tenants)[tid].createdAt else tx.now)
      && tx.tenants == old(tx.tenants)[tid := r.value]
      && tx.elements == old(tx.elements)
  {
    if d :| d in tx.tenants && d != tid && tx.tenants[d].name == form.name {
      return Failure(Validation(Some("tenant_name_exists"), NameTakenMessage(form.name, d)));
    }
    var createdAt := if tid in tx.tenants then tx.tenants[tid].createdAt else tx.now;
    var tenant := Tenant(tid, form.name, createdAt);
    tx.tenants := tx.tenants[tid := tenant];
    r := Success(tenant);
  }

  /** `Tenant::count`: the number of rows the search selects. */
  method Count(tx: Tx, q: Option<string>) returns (n: nat)
    requires tx.Valid()
    ensures n == |MatchingRows(tx.tenants, q)|
  {
    match q {
      case None =>
        MatchingAllRows(tx.tenants, tx.elements);
        n := |tx.tenants|;
      case Some(_) =>
        n := |MatchingRows(tx.tenants, q)|;
    }
  }

  /** `Tenant::find`: one page of the rows the search selects. `all` is
      the whole ordered listing the database produces before applying
      `LIMIT`/`OFFSET`; rows that tie on every sort column may come in any
      order. */
  method Find(tx: Tx, query: QuerySearch) returns (rows: seq<Tenant>, ghost all: seq<Tenant>)
    requires tx.Valid() && Valid(query)
    ensures multiset(all) == multiset(MatchingRows(tx.tenants, query.q))
    ensures Sorted(all, OrderKeys(Order(query)), Directions(Order(query)))
    ensures rows == Window(all, query.offset, query.pageSize)
    ensures |rows| == Min(query.pageSize, Max(0, |MatchingRows(tx.tenants, query.q)| - query.offset))
    ensures forall t :: t in rows ==> t in MatchingRows(tx.tenants, query.q)
  {
    var order := Order(query);
    var selected := FetchAll(MatchingRows(tx.tenants, query.q));
    var ordered := SortBy(selected, OrderKeys(order), Directions(order));
    SortBySorted(selected, OrderKeys(order), Directions(order));
    rows := Window(ordered, query.offset, query.pageSize);
    all := ordered;
    assert |all| == |multiset(all)| == |MatchingRows(tx.tenants, query.q)|;
    forall t | t in rows
      ensures t in MatchingRows(tx.tenants, query.q)
    {
      assert t in multiset(all);
    }
  }

  /** `Tenant::has_elements` */
  method HasElements(tx: Tx, tid: string) returns (b: bool)
    requires tx.Valid()
    ensures b <==> exists e :: e in tx.elements.Values && e.tid == tid
  {
    NoElementKeysIffNoRows(tx.tenants, tx.elements, tid);
    b := ElementKeysOf(tx.elements, tid) != {};
  }

  /** `Tenant::delete`: refuses a tenant that still has elements unless
      forced; otherwise deletes its elements (when forced) and then the
      tenant, and returns how many rows went. */
  method Delete(tx: Tx, tid: string, force: bool) returns (r: Result<nat, AppError>)
    requires tx.Valid()
    modifies tx
    ensures tx.Valid()
    ensures !force && ElementKeysOf(old(tx.elements), tid) != {} ==>
      r == Failure(StaticValidation("cannot delete tenant with elements")) && unchanged(tx)
    ensures force || ElementKeysOf(old(tx.elements), tid) == {} ==>
      && r.Success?
      && tx.tenants == old(tx.tenants) - {tid}
      && tx.elements == old(tx.elements) - ElementKeysOf(old(tx.elements), tid)
      && r.value == |ElementKeysOf(old(tx.elements), tid)| + (if tid in old(tx.tenants) then 1 else 0)
  {
    var hasToDeleteElements: bool;
    if force {
      hasToDeleteElements := true;
    } else {
      var hasEl := HasElements(tx, tid);
      NoElementKeysIffNoRows(tx.tenants, tx.elements, tid);
      if hasEl {
        return Failure(StaticValidation("cannot delete tenant with elements"));
      }
      hasToDeleteElements := false;
    }
    var rowsAffected: nat := 0;
    if hasToDeleteElements {
      var doomed := ElementKeysOf(tx.elements, tid);
      tx.elements := tx.elements - doomed;
      rowsAffected := rowsAffected + |doomed|;
    }
    var found := tid in tx.tenants;
    tx.tenants := tx.tenants - {tid};
    rowsAffected := rowsAffected + if found then 1 else 0;
    r := Success(rowsAffected);
  }
}
