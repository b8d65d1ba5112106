/** The envelope of a paginated result (src/page.rs). */
module Pages {
  import opened Wrappers

  /** `total` is absent when the caller asked not to count the rows. */
  datatype Page<T> = Page(
    data: seq<T>,
    offset: int,
    pageSize: int,
    total: Option<int>,
    message: Option<string>,
    warning: Option<string>)

  /** What every constructor guarantees: `page_size` is the number of rows
      actually returned (not the size that was asked for) and neither a
      message nor a warning is set. */
  predicate Consistent<T>(p: Page<T>)
  {
    p.pageSize == |p.data| && p.message.None? && p.warning.None?
  }

  /** `Page::with_data`: one page of a larger listing that starts `offset` rows in. */
  function WithData<T>(data: seq<T>, total: Option<int>, offset: int): (p: Page<T>)
    ensures Consistent(p)
    ensures p.data == data && p.total == total && p.offset == offset
  {
    Page(data, offset, |data|, total, None, None)
  }

  /** `Page::from`: a whole listing in one page, so its total is its length. */
  function From<T>(v: seq<T>): (p: Page<T>)
    ensures p == WithData(v, Some(|v|), 0)
  {
    Page(v, 0, |v|, Some(|v|), None, None)
  }

  /** `Page::empty`: the page of an empty listing. */
  function Empty<T>(): (p: Page<T>)
    ensures p == From([])
  {
    Page([], 0, 0, Some(0), None, None)
  }
}
