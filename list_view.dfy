// ReadOnlyRuntimeTypeListView and its siblings: a window onto one of the
// loader's arrays.
module ListViews {
  /** count consecutive entries of an array, from start; a count of zero or less is empty. */
  datatype ListView = ListView(start: int, count: int)

  const EmptyView := ListView(0, 0)

  /** Whether the view covers slot i. */
  predicate Covers(v: ListView, i: int)
  {
    v.start <= i < v.start + v.count
  }
}
