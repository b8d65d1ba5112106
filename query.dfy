/** Query-string parameters of the list endpoints (src/query.rs): search
    text, sort directive, offset, page size and whether to include the
    total, with the translation of the sort directive into `ORDER BY` text. */
module Query {
  import opened Wrappers
  import opened Strings
  import opened Sql
  import opened Validator

  /** Default pagination size (`PAGE_SIZE`). */
  const PAGE_SIZE: int := 50

  datatype QuerySearch = QuerySearch(
    q: Option<string>,
    sort: Option<string>,
    offset: int,
    pageSize: int,
    includeTotal: Option<bool>)

  /** Deserialisation of the query string: an omitted `offset` is 0 and an
      omitted `page_size` is `PAGE_SIZE`; the other parameters stay optional. */
  function FromParams(
    q: Option<string>, sort: Option<string>, offset: Option<int>,
    pageSize: Option<int>, includeTotal: Option<bool>): QuerySearch
  {
    QuerySearch(q, sort, offset.GetOr(0), pageSize.GetOr(PAGE_SIZE), includeTotal)
  }

  /** The `range(min = 0)` rule on `offset` and `range(min = 1)` on `page_size`. */
  function Validate(query: QuerySearch): FieldErrors
  {
    var errors := AddField(map[], "offset", if query.offset >= 0 then [] else [RANGE]);
    AddField(errors, "page_size", if query.pageSize >= 1 then [] else [RANGE])
  }

  /** A query that passed validation, as every list handler receives it. */
  predicate Valid(query: QuerySearch)
  {
    query.offset >= 0 && query.pageSize >= 1
  }

  /** Validation reports no field exactly for a valid query, and reports
      each bound that fails under its own field name. */
  lemma ValidateAccepts(query: QuerySearch)
    ensures Validate(query) == map[] <==> Valid(query)
    ensures "offset" in Validate(query) <==> query.offset < 0
    ensures "page_size" in Validate(query) <==> query.pageSize < 1
  {
    if !Valid(query) {
      assert "offset" in Validate(query) || "page_size" in Validate(query);
    }
  }

  /** With offset and page size left out, the query takes the defaults
      and passes validation, whatever the other parameters are. */
  lemma DefaultsAreValid(q: Option<string>, sort: Option<string>, includeTotal: Option<bool>)
    ensures var query := FromParams(q, sort, None, None, includeTotal);
      query.offset == 0 && query.pageSize == PAGE_SIZE && Validate(query) == map[]
  {
  }

  /** One piece of the directive as `ORDER BY` text: a leading `-` becomes
      a ` DESC` suffix on the rest of the piece. */
  function OrderTerm(piece: string): string
  {
    if |piece| > 0 && piece[0] == '-' then piece[1..] + " DESC" else piece
  }

  /** An `ORDER BY` item built from an allowed column. */
  predicate IsOrderTerm(term: string, allowed: seq<string>)
  {
    term in allowed || (EndsWith(term, " DESC") && term[..|term| - 5] in allowed)
  }

  /** The `filter`/`map` steps of `parse_sort`: keeps the pieces whose name,
      after stripping one leading `-`, is allowed, and turns each into its
      `ORDER BY` item; at most one item per piece, each from an allowed column. */
  function SortTerms(pieces: seq<string>, allowed: seq<string>): (terms: seq<string>)
    ensures |terms| <= |pieces|
    ensures forall i :: 0 <= i < |terms| ==> IsOrderTerm(terms[i], allowed)
  {
    if |pieces| == 0 then []
    else
      var rest := SortTerms(pieces[1..], allowed);
      var p := pieces[0];
      if StripPrefixOr(p, '-') in allowed then
        assert |p| > 0 && p[0] == '-' ==> (p[1..] + " DESC")[..|p[1..] + " DESC"| - 5] == p[1..];
        [OrderTerm(p)] + rest
      else rest
  }

  /** The surviving pieces keep their input order, duplicates included:
      the items of two runs of pieces are the items of each run, in turn. */
  lemma {:induction false} SortTermsKeepOrder(a: seq<string>, b: seq<string>, allowed: seq<string>)
    ensures SortTerms(a + b, allowed) == SortTerms(a, allowed) + SortTerms(b, allowed)
    decreases |a|
  {
    if |a| == 0 {
      assert a + b == b;
    } else {
      assert (a + b)[0] == a[0];
      assert (a + b)[1..] == a[1..] + b;
      SortTermsKeepOrder(a[1..], b, allowed);
      var head := if StripPrefixOr(a[0], '-') in allowed then [OrderTerm(a[0])] else [];
      assert SortTerms(a, allowed) == head + SortTerms(a[1..], allowed);
      assert SortTerms(a + b, allowed) == head + SortTerms(a[1..] + b, allowed);
    }
  }

  /** `parse_sort`: the comma-separated pieces of the directive (an absent
      directive reads as the empty string) turned into `ORDER BY` items. */
  function ParseSort(sort: Option<string>, allowed: seq<string>): seq<string>
  {
    SortTerms(Split(sort.GetOr(""), ','), allowed)
  }

  /** An absent directive sorts by nothing, unless the empty string is an
      allowed column name (the one piece of an empty directive is ""). */
  lemma ParseSortAbsent(allowed: seq<string>)
    ensures ParseSort(None, allowed) == (if "" in allowed then [""] else [])
  {
    assert Split("", ',') == [""];
  }

  /** `parse_sort` yields at most one item per comma-separated piece, each
      the name of an allowed column, possibly followed by ` DESC`. */
  lemma ParseSortShape(sort: string, allowed: seq<string>)
    ensures |ParseSort(Some(sort), allowed)| <= |Split(sort, ',')|
    ensures forall i :: 0 <= i < |ParseSort(Some(sort), allowed)| ==>
      IsOrderTerm(ParseSort(Some(sort), allowed)[i], allowed)
  {
  }

  /** The examples documented on `parse_sort`. */
  lemma ParseSortExamples()
    ensures ParseSort(None, ["a", "b"]) == []
    ensures ParseSort(Some("a,-b"), ["a", "b"]) == ["a", "b DESC"]
    ensures ParseSort(Some("name,-b,c"), ["name", "c"]) == ["name", "c"]
  {
    ParseSortAbsent(["a", "b"]);
    ParseSortAscDesc();
    ParseSortDropsUnknown(["name", "c"], ["name", "c"]);
  }

  /** A single piece is kept, as its `ORDER BY` item, exactly when its
      name is allowed. */
  lemma SortTermsOfPiece(piece: string, allowed: seq<string>)
    ensures SortTerms([piece], allowed)
      == if StripPrefixOr(piece, '-') in allowed then [OrderTerm(piece)] else []
  {
    assert [piece][1..] == [];
  }

  lemma ParseSortAscDesc()
    ensures ParseSort(Some("a,-b"), ["a", "b"]) == ["a", "b DESC"]
  {
    var ab := ["a", "-b"];
    SplitJoin(ab, ',');
    assert Join(ab, ",") == "a,-b";
    SortTermsKeepOrder(["a"], ["-b"], ["a", "b"]);
    assert ["a"] + ["-b"] == ab;
    SortTermsOfPiece("a", ["a", "b"]);
    SortTermsOfPiece("-b", ["a", "b"]);
    assert StripPrefixOr("-b", '-') == "b" && OrderTerm("-b") == "b DESC";
  }

  /** The pieces of the third documented directive. */
  lemma SplitNameBC()
    ensures Split("name,-b,c", ',') == ["name", "-b", "c"]
  {
    var nbc := ["name", "-b", "c"];
    SplitJoin(nbc, ',');
    assert Join(nbc, ",") == "name,-b,c";
  }

  /** "name,-b,c" keeps "name" and "c" when those are allowed and "b" is not. */
  lemma ParseSortDropsUnknown(allowed: seq<string>, expected: seq<string>)
    requires "b" !in allowed
    requires expected == (if "name" in allowed then ["name"] else []) + (if "c" in allowed then ["c"] else [])
    ensures ParseSort(Some("name,-b,c"), allowed) == expected
  {
    SplitNameBC();
    assert ["name", "-b", "c"] == ["name"] + (["-b"] + ["c"]);
    SortTermsKeepOrder(["-b"], ["c"], allowed);
    SortTermsKeepOrder(["name"], ["-b"] + ["c"], allowed);
    SortTermsOfPiece("name", allowed);
    SortTermsOfPiece("-b", allowed);
    SortTermsOfPiece("c", allowed);
    assert StripPrefixOr("-b", '-') == "b";
  }

  /** `sort_as_order_by_args`: the `ORDER BY` items joined by ", ", or the
      default column when no item survives. */
  function SortAsOrderByArgs(sort: Option<string>, allowed: seq<string>, default: string): string
  {
    var sorting := ParseSort(sort, allowed);
    if |sorting| == 0 then default else Join(sorting, ", ")
  }

  /** An absent directive orders by the default column. */
  lemma SortAsOrderByArgsAbsent()
    ensures SortAsOrderByArgs(None, ["a", "b"], "a") == "a"
  {
    ParseSortAbsent(["a", "b"]);
  }

  /** "a,-b" over `[a, b]` orders by "a, b DESC". */
  lemma SortAsOrderByArgsAscDesc()
    ensures SortAsOrderByArgs(Some("a,-b"), ["a", "b"], "a") == "a, b DESC"
  {
    ParseSortAscDesc();
    assert Join(["a", "b DESC"], ", ") == "a, b DESC";
  }

  /** A directive with no allowed column orders by the default one. */
  lemma SortAsOrderByArgsNoneAllowed()
    ensures SortAsOrderByArgs(Some("name,-b,c"), ["a", "h"], "c") == "c"
  {
    ParseSortDropsUnknown(["a", "h"], []);
  }

  /** How the database reads one `ORDER BY` item. */
  function Interpret(term: string): Directive
  {
    if EndsWith(term, " DESC") then Directive(term[..|term| - 5], Desc) else Directive(term, Asc)
  }

  /** The `ORDER BY` item of a directive. */
  function Render(d: Directive): string
  {
    if d.dir == Desc then d.field + " DESC" else d.field
  }

  /** Reading an item and writing it back gives the same text. */
  lemma RenderInterpret(term: string)
    ensures Render(Interpret(term)) == term
  {
    if EndsWith(term, " DESC") {
      assert term[..|term| - 5] + " DESC" == term;
    }
  }

  /** The ordering a repository query applies: the directives of the sort
      parameter, or the default column ascending when none survives. */
  function OrderBy(query: QuerySearch, allowed: seq<string>, default: string): seq<Directive>
  {
    var sorting := ParseSort(query.sort, allowed);
    if |sorting| == 0 then [Interpret(default)]
    else seq(|sorting|, i requires 0 <= i < |sorting| => Interpret(sorting[i]))
  }

  /** `OrderBy` is exactly what the `ORDER BY` text built by
      `sort_as_order_by_args` says. */
  lemma {:induction false} OrderByRendersAs(query: QuerySearch, allowed: seq<string>, default: string)
    ensures var dirs := OrderBy(query, allowed, default);
      Join(seq(|dirs|, i requires 0 <= i < |dirs| => Render(dirs[i])), ", ")
        == SortAsOrderByArgs(query.sort, allowed, default)
  {
    var dirs := OrderBy(query, allowed, default);
    var sorting := ParseSort(query.sort, allowed);
    var rendered := seq(|dirs|, i requires 0 <= i < |dirs| => Render(dirs[i]));
    if |sorting| == 0 {
      RenderInterpret(default);
      assert rendered == [default];
    } else {
      forall i | 0 <= i < |sorting| ensures rendered[i] == sorting[i] {
        RenderInterpret(sorting[i]);
      }
      assert rendered == sorting;
    }
  }

  /** When no allowed column (nor the default) itself ends in " DESC", every
      directive of `OrderBy` names an allowed column or the default one. */
  lemma OrderByColumns(query: QuerySearch, allowed: seq<string>, default: string)
    requires forall f :: f in allowed ==> !EndsWith(f, " DESC")
    requires !EndsWith(default, " DESC")
    ensures forall d :: d in OrderBy(query, allowed, default) ==> d.field in allowed || d.field == default
  {
    var sorting := ParseSort(query.sort, allowed);
    forall i | 0 <= i < |sorting| ensures Interpret(sorting[i]).field in allowed {
      var t := sorting[i];
      if t in allowed {
        assert !EndsWith(t, " DESC");
      }
    }
  }
}
