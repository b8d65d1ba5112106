/** src/elements/api.rs: the HTTP handlers of the element endpoints, each
    running one transaction. Payload and query-string validation happens
    in the extractors before a handler runs, so handlers receive valid
    input; a handler error leaves the tables as they were. */
module ElementsApi {
  import opened Wrappers
  import opened Strings
  import opened Sql
  import opened Query
  import opened Rest
  import opened Tables
  import opened Utils
  import opened Pages
  import opened Elements
  import Tenants

  const OK: int := 200
  const CREATED: int := 201
  const NO_CONTENT: int := 204
  const NOT_FOUND: int := 404

  /** A successful response: a status and the JSON body, if any. */
  datatype Response<B> = Response(status: int, body: Option<B>)

  /** `POST /{tid}`: stores a new element and returns it with 201. */
  method Create(tx: Tx, tid: string, form: ElementPayload, random: nat) returns (r: Result<Response<Element>, AppError>)
    requires tx.Valid() && ValidPayload(form)
    requires random < U64_BOUND
    modifies tx
    ensures tx.Valid()
    ensures r.Failure? ==> unchanged(tx)
    ensures tid !in old(tx.tenants) ==> r == Failure(ResourceNotFound("tenant", "id", tid))
    ensures tid in old(tx.tenants) && CREATED_AT in form.data ==>
      r == Failure(StaticValidation(RESERVED_CREATED_AT))
    ensures tid in old(tx.tenants) && CREATED_AT !in form.data && form.id.Some? && (tid, form.id.value) in old(tx.elements) ==>
      r == Failure(ResourceAlreadyExists("element", "id", form.id.value))
    ensures tid in old(tx.tenants) && CREATED_AT !in form.data && form.id.None? && (tid, ToDecimal(random)) in old(tx.elements) ==>
      r == Failure(DB(UNIQUE_VIOLATION))
    ensures r.Success? <==>
      tid in old(tx.tenants) && CREATED_AT !in form.data && (tid, NewId(form, random)) !in old(tx.elements)
    ensures r.Success? ==>
      && r.value.status == CREATED
      && r.value.body.Some?
      && var el := r.value.body.value;
      && el == Element(NewId(form, random), tid, form.data, tx.now)
      && ValidElementId(el.id)
      && tx.elements == old(tx.elements)[(tid, el.id) := el]
      && tx.tenants == old(tx.tenants)
  {
    var el :- Elements.Insert(tx, tid, form, random);
    if form.id.None? {
      GeneratedIdIsValid(random);
    }
    r := Success(Response(CREATED, Some(el)));
  }

  /** `GET /{tid}/{id}`: the element with 200, or an empty 404 when the
      tenant exists but the element does not. */
  method Read(tx: Tx, tid: string, id: string) returns (r: Result<Response<Element>, AppError>)
    requires tx.Valid()
    ensures tid !in tx.tenants ==> r == Failure(ResourceNotFound("tenant", "id", tid))
    ensures tid in tx.tenants && (tid, id) in tx.elements ==> r == Success(Response(OK, Some(tx.elements[(tid, id)])))
    ensures tid in tx.tenants && (tid, id) !in tx.elements ==> r == Success(Response(NOT_FOUND, None))
  {
    var element :- Get(tx, tid, id);
    match element {
      case Some(el) =>
        r := Success(Response(OK, Some(el)));
      case None =>
        r := Success(Response(NOT_FOUND, None));
    }
  }

  /** `GET /{tid}`: one page of the tenant's elements, newest first, with
      the total unless the caller opts out. When the count is 0 the
      listing query is skipped and the empty page (offset 0) is returned,
      whose rows are the same as the skipped query's. */
  method List(tx: Tx, tid: string, query: QuerySearch) returns (r: Result<Response<Page<Element>>, AppError>, ghost all: seq<Element>)
    requires tx.Valid() && Valid(query)
    ensures tid !in tx.tenants ==> r == Failure(ResourceNotFound("tenant", "id", tid))
    ensures tid in tx.tenants ==> r.Success? && r.value.status == OK && r.value.body.Some?
    ensures r.Success? ==>
      && multiset(all) == multiset(ElementRowsOf(tx.elements, tid))
      && Sorted(all, CreatedAtKey, NEWEST_FIRST)
    ensures r.Success? && r.value.body.Some? ==>
      var page := r.value.body.value;
      && Pages.Consistent(page)
      && page.data == Window(all, query.offset, query.pageSize)
      && page.total == (if query.includeTotal.GetOr(true) then Some(|all|) else None)
      && page.offset == (if page.total == Some(0) then 0 else query.offset)
  {
    all := [];
    var _ :- Tenants.ExistsOrFail(tx, tid);
    var total: Option<int>;
    if query.includeTotal.GetOr(true) {
      var n := Count(tx, tid);
      total := Some(n);
    } else {
      total := None;
    }
    var page: Page<Element>;
    if total == Some(0) {
      page := Empty();
      all := [];
      assert ElementRowsOf(tx.elements, tid) == {};
    } else {
      var data;
      data, all := Find(tx, tid, query);
      assert |all| == |multiset(all)| == |ElementRowsOf(tx.elements, tid)|;
      page := WithData(data, total, query.offset);
    }
    r := Success(Response(OK, Some(page)));
  }

  /** `DELETE /{tid}/{id}`: 204 when a row went, an empty 404 otherwise. */
  method Delete(tx: Tx, tid: string, id: string) returns (r: Result<Response<()>, AppError>)
    requires tx.Valid()
    modifies tx
    ensures tx.Valid()
    ensures tid !in old(tx.tenants) ==> r == Failure(ResourceNotFound("tenant", "id", tid)) && unchanged(tx)
    ensures tid in old(tx.tenants) ==>
      && r == Success(Response(if (tid, id) in old(tx.elements) then NO_CONTENT else NOT_FOUND, None))
      && tx.elements == old(tx.elements) - {(tid, id)}
      && tx.tenants == old(tx.tenants)
  {
    var rowsDeleted :- Elements.Delete(tx, tid, id);
    if rowsDeleted == 0 {
      r := Success(Response(NOT_FOUND, None));
    } else {
      r := Success(Response(NO_CONTENT, None));
    }
  }
}
