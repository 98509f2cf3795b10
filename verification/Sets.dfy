/** What loops over a set need. */
module Sets {
  /** Some member, as Go's map iteration picks one. */
  method Pick<T(==)>(s: set<T>) returns (x: T)
    requires s != {}
    ensures x in s
  {
    x :| x in s;
  }
}
