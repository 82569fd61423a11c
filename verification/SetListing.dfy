/** Python's `list(s)` of a set: its members in some order. */
module SetListing {
  method ListOf<T(==)>(s: set<T>) returns (l: seq<T>)
    ensures forall x :: x in l <==> x in s
  {
    l := [];
    var rest := s;
    while rest != {}
      invariant forall x :: x in s <==> x in l || x in rest
      decreases |rest|
    {
      var x :| x in rest;
      l, rest := l + [x], rest - {x};
    }
  }
}
