/** Values that may be missing. */
module Options {
  datatype Option<+T> = None | Some(value: T)

  /** r with `done` before it; None stays None. */
  function Onto<T>(done: seq<T>, r: Option<seq<T>>): Option<seq<T>> {
    if r.None? then None else Some(done + r.value)
  }

  lemma OntoTwice<T>(a: seq<T>, b: seq<T>, r: Option<seq<T>>)
    ensures Onto(a, Onto(b, r)) == Onto(a + b, r)
  {
    if r.Some? {
      assert a + (b + r.value) == a + b + r.value;
    }
  }

  lemma OntoNothing<T>(r: Option<seq<T>>)
    ensures Onto([], r) == r
  {
    if r.Some? {
      assert [] + r.value == r.value;
    }
  }
}
