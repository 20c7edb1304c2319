/** What several of the models share. */
module Common {
  datatype Option<+T> = None | Some(value: T)

  lemma AnyOf<T>(s: set<T>) returns (x: T)
    requires s != {}
    ensures x in s
  {
    x :| x in s;
  }
}
