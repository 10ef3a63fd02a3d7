/** Small things every module shares. */
module Common {
  datatype Option<+T> = None | Some(value: T)

  /** The elements of a query result, order forgotten. */
  function Elems<T>(rows: seq<T>): set<T> {
    set r | r in rows
  }

  ghost function Pick<T>(s: set<T>): (x: T)
    requires s != {}
    ensures x in s
  {
    var x :| x in s;
    x
  }

  method PickOne<T>(s: set<T>) returns (x: T)
    requires s != {}
    ensures x in s
  {
    x :| x in s;
  }

  lemma {:induction false} SubsetSize<T>(a: set<T>, b: set<T>)
    requires a <= b
    ensures |a| <= |b|
  {
    if a != {} {
      var x := Pick(a);
      SubsetSize(a - {x}, b - {x});
    }
  }
}
