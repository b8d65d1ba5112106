/** src/elements/model.rs: the element payload rules and the element
    repository. Elements are JSON documents stored per tenant. */
module Elements {
  import opened Wrappers
  import opened Strings
  import opened Sql
  import opened Validator
  import opened Query
  import opened Rest
  import opened Json
  import opened Tables
  import opened Utils
  import Tenants

  // ----- Payload rules -----

  /** The two non-ASCII letters that case-insensitive `[a-z]` also
      matches: KELVIN SIGN folds to `k` and LATIN SMALL LETTER LONG S to `s`. */
  const KELVIN_SIGN: char := '\U{212A}'
  const LONG_S: char := '\U{017F}'

  /** `(?i)[a-z]` */
  predicate IsIdLetter(c: char)
  {
    'a' <= c <= 'z' || 'A' <= c <= 'Z' || c == KELVIN_SIGN || c == LONG_S
  }

  /** `[a-z0-9_~@\\/]` under `(?i)` */
  predicate IsIdFirstChar(c: char)
  {
    IsIdLetter(c) || IsDigit(c) || c == '_' || c == '~' || c == '@' || c == '\\' || c == '/'
  }

  /** `[a-z0-9_\\~@\-\.\:+]` under `(?i)` */
  predicate IsIdChar(c: char)
  {
    IsIdLetter(c) || IsDigit(c) || c == '_' || c == '\\' || c == '~' || c == '@'
      || c == '-' || c == '.' || c == ':' || c == '+'
  }

  /** `ID_VALID`: a first character from the first class, then any number
      of characters from the second. */
  predicate IdPatternMatches(id: string)
  {
    |id| >= 1 && IsIdFirstChar(id[0]) && forall i :: 1 <= i < |id| ==> IsIdChar(id[i])
  }

  const INVALID_ID: ValidationError := ValidationError("invalid_id",
    Some("id can only contains letters, numbers or the symbols \\_~@-.:+, and must starts with a letter or number, or the symbols \\_~@"))

  /** `ElementPayload`: an optional client-chosen id and the document. */
  datatype ElementPayload = ElementPayload(id: Option<string>, data: JsonObject)

  /** `ElementPayload::validate`: the id rules apply only to a given id. */
  function ValidatePayload(p: ElementPayload): FieldErrors
  {
    match p.id
    case None => map[]
    case Some(id) => AddField(map[], "id", CheckLength(id, 1, 256) + (if IdPatternMatches(id) then [] else [INVALID_ID]))
  }

  predicate ValidElementId(id: string)
  {
    1 <= |id| <= 256 && IdPatternMatches(id)
  }

  predicate ValidPayload(p: ElementPayload)
  {
    p.id.Some? ==> ValidElementId(p.id.value)
  }

  /** A payload passes exactly when it has no id or a valid one; only the
      `id` field is ever reported. */
  lemma ValidatePayloadAccepts(p: ElementPayload)
    ensures ValidatePayload(p) == map[] <==> ValidPayload(p)
    ensures forall f :: f in ValidatePayload(p) ==> f == "id"
  {
    if !ValidPayload(p) {
      assert "id" in ValidatePayload(p);
    }
  }

  /** The id the server generates, the decimal text of a random `u64`,
      always passes the rules a client-chosen id must pass. */
  lemma {:induction false} GeneratedIdIsValid(random: nat)
    requires random < U64_BOUND
    ensures ValidElementId(ToDecimal(random))
  {
    ToDecimalDenotes(random);
    U64DecimalLength(random);
  }

  // ----- Repository -----

  /** The error of an `INSERT` whose primary key is already taken. The text is
      what PostgreSQL reports for a unique violation, with `elements_pkey`
      being PostgreSQL's default name for the table's primary-key
      constraint; neither string appears in the program itself. */
  const UNIQUE_VIOLATION: string := "duplicate key value violates unique constraint \"elements_pkey\""

  /** The id an insert uses: the client's, or the decimal text of the random draw. */
  function NewId(form: ElementPayload, random: nat): string
  {
    match form.id
    case None => ToDecimal(random)
    case Some(id) => id
  }

  /** `Element::exists` */
  method Exists(tx: Tx, tid: string, id: string) returns (b: bool)
    requires tx.Valid()
    ensures b <==> exists e :: e in tx.elements.Values && e.tid == tid && e.id == id
  {
    b := (tid, id) in tx.elements;
    if b {
      assert tx.elements[(tid, id)] in tx.elements.Values;
    }
  }

  /** `Element::insert`: checks, in order, that the tenant exists, that the
      document does not carry `created_at`, and that a client-chosen id is
      free; a generated id that happens to be taken fails on the primary key. */
  method Insert(tx: Tx, tid: string, form: ElementPayload, random: nat) returns (r: Result<Element, AppError>)
    requires tx.Valid()
    requires random < U64_BOUND
    modifies tx
    ensures tx.Valid()
    ensures r.Failure? ==> unchanged(tx)
    ensures tid !in old(tx.tenants) ==> r == Failure(ResourceNotFound("tenant", "id", tid))
    ensures tid in old(tx.tenants) && CREATED_AT in form.data ==>
      r == Failure(StaticValidation(RESERVED_CREATED_AT))
    ensures tid in old(tx.tenants) && RejectCreatedAt(form.data).Failure? ==>
      r == Failure(RejectCreatedAt(form.data).error)
    ensures tid in old(tx.tenants) && CREATED_AT !in form.data && form.id.Some? && (tid, form.id.value) in old(tx.elements) ==>
      r == Failure(ResourceAlreadyExists("element", "id", form.id.value))
    ensures tid in old(tx.tenants) && CREATED_AT !in form.data && form.id.None? && (tid, ToDecimal(random)) in old(tx.elements) ==>
      r == Failure(DB(UNIQUE_VIOLATION))
    ensures tid in old(tx.tenants) && CREATED_AT !in form.data && (tid, NewId(form, random)) !in old(tx.elements) ==>
      && r == Success(Element(NewId(form, random), tid, form.data, tx.now))
      && tx.elements == old(tx.elements)[(tid, r.value.id) := r.value]
      && tx.tenants == old(tx.tenants)
  {
    var _ :- Tenants.ExistsOrFail(tx, tid);
    if CREATED_AT in form.data {
      return Failure(StaticValidation(RESERVED_CREATED_AT));
    }
    var id: string;
    match form.id {
      case None =>
        id := ToDecimal(random);
      case Some(clientId) =>
        var taken := Exists(tx, tid, clientId);
        if taken {
          return Failure(ResourceAlreadyExists("element", "id", clientId));
        }
        id := clientId;
    }
    if (tid, id) in tx.elements {
      return Failure(DB(UNIQUE_VIOLATION));
    }
    var element := Element(id, tid, form.data, tx.now);
    tx.elements := tx.elements[(tid, id) := element];
    r := Success(element);
  }

  /** `Element::get`: the tenant must exist; the element may not. */
  method Get(tx: Tx, tid: string, id: string) returns (r: Result<Option<Element>, AppError>)
    requires tx.Valid()
    ensures tid !in tx.tenants ==> r == Failure(ResourceNotFound("tenant", "id", tid))
    ensures tid in tx.tenants ==> r.Success?
    ensures r.Success? ==> (r.value.Some? <==> exists e :: e in tx.elements.Values && e.tid == tid && e.id == id)
    ensures r.Success? && r.value.Some? ==>
      r.value.value in tx.elements.Values && r.value.value.tid == tid && r.value.value.id == id
  {
    var _ :- Tenants.ExistsOrFail(tx, tid);
    if (tid, id) in tx.elements {
      r := Success(Some(tx.elements[(tid, id)]));
    } else {
      r := Success(None);
    }
  }

  /** `Element::delete`: the tenant must exist; returns how many rows went (0 or 1). */
  method Delete(tx: Tx, tid: string, id: string) returns (r: Result<nat, AppError>)
    requires tx.Valid()
    modifies tx
    ensures tx.Valid()
    ensures tid !in old(tx.tenants) ==> r == Failure(ResourceNotFound("tenant", "id", tid)) && unchanged(tx)
    ensures tid in old(tx.tenants) ==>
      && r == Success(if (tid, id) in old(tx.elements) then 1 else 0)
      && tx.elements == old(tx.elements) - {(tid, id)}
      && tx.tenants == old(tx.tenants)
  {
    var _ :- Tenants.ExistsOrFail(tx, tid);
    var found := (tid, id) in tx.elements;
    tx.elements := tx.elements - {(tid, id)};
    r := Success(if found then 1 else 0);
  }

  /** `Element::count`: how many elements the tenant holds (no tenant
      check: an unknown tenant holds none). */
  method Count(tx: Tx, tid: string) returns (n: nat)
    requires tx.Valid()
    ensures n == |ElementRowsOf(tx.elements, tid)|
  {
    ElementRowsCount(tx.tenants, tx.elements, tid);
    n := |ElementKeysOf(tx.elements, tid)|;
  }

  /** The one sort column of a listing. */
  function CreatedAtKey(e: Element): seq<Key>
  {
    [Time(e.createdAt)]
  }

  /** `ORDER BY created_at DESC` */
  const NEWEST_FIRST: seq<Direction> := [Desc]

  /** In a listing sorted newest first, no element is older than one after it. */
  lemma NewestFirstOrder(all: seq<Element>)
    requires Sorted(all, CreatedAtKey, NEWEST_FIRST)
    ensures forall i, j :: 0 <= i < j < |all| ==> all[i].createdAt >= all[j].createdAt
  {
    forall i, j | 0 <= i < j < |all| ensures all[i].createdAt >= all[j].createdAt {
      assert !RowLt(CreatedAtKey(all[j]), CreatedAtKey(all[i]), NEWEST_FIRST);
    }
  }

  /** `Element::find`: one page of the tenant's elements, newest first; the
      search text and the sort parameter are not used. `all` is the whole
      ordered listing; elements created at the same instant may come in
      any order. */
  method Find(tx: Tx, tid: string, query: QuerySearch) returns (rows: seq<Element>, ghost all: seq<Element>)
    requires tx.Valid() && Valid(query)
    ensures multiset(all) == multiset(ElementRowsOf(tx.elements, tid))
    ensures Sorted(all, CreatedAtKey, NEWEST_FIRST)
    ensures rows == Window(all, query.offset, query.pageSize)
    ensures |rows| == Min(query.pageSize, Max(0, |ElementRowsOf(tx.elements, tid)| - query.offset))
    ensures forall e :: e in rows ==> e in ElementRowsOf(tx.elements, tid)
  {
    var selected := FetchAll(ElementRowsOf(tx.elements, tid));
    var ordered := SortBy(selected, CreatedAtKey, NEWEST_FIRST);
    SortBySorted(selected, CreatedAtKey, NEWEST_FIRST);
    rows := Window(ordered, query.offset, query.pageSize);
    all := ordered;
    assert |all| == |multiset(all)| == |ElementRowsOf(tx.elements, tid)|;
    forall e | e in rows
      ensures e in ElementRowsOf(tx.elements, tid)
    {
      assert e in multiset(all);
    }
  }
}
