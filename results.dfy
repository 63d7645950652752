/** Failure outcomes of the mgjson encoder.

    The source signals every failure by raising an exception before the
    document is touched; here each failure is a value of `Error`. */
module Results {

  datatype Error =
    /** A static property whose value is not exactly an int, a str or a bool
        (a float, a list, an int subclass, ...). */
    | UnsupportedType(typeName: string)
    /** `max()` over an empty stream of samples. */
    | EmptyStream
    /** `datetime(1970, 1, 1) + timedelta(...)` left the years 1..9999. */
    | DateOutOfRange

  datatype Result<+T> = Ok(value: T) | Err(error: Error)

  datatype Option<+T> = None | Some(value: T)

  /** What an operation that changes the document reports: it either went
      through or failed without changing anything. */
  datatype Outcome = Pass | Fail(error: Error)

  /** Applies f to the elements in order, as a `for` loop that appends each
      result and lets the first exception escape: the results of all of
      them, or the error of the first that fails. */
  function MapResult<A, B>(f: A -> Result<B>, xs: seq<A>): (r: Result<seq<B>>)
    ensures r.Ok? ==> |r.value| == |xs|
  {
    if xs == [] then Ok([])
    else
      var init := MapResult(f, xs[..|xs| - 1]);
      var last := f(xs[|xs| - 1]);
      if init.Err? then init
      else if last.Err? then Err(last.error)
      else Ok(init.value + [last.value])
  }

  /** Result i is the result of f on element i. */
  lemma {:induction false} MapResultPointwise<A, B>(f: A -> Result<B>, xs: seq<A>, i: int)
    requires MapResult(f, xs).Ok? && 0 <= i < |xs|
    ensures f(xs[i]) == Ok(MapResult(f, xs).value[i])
  {
    var n := |xs| - 1;
    if i < n {
      MapResultPointwise(f, xs[..n], i);
      assert xs[..n][i] == xs[i];
    }
  }

  /** The map fails exactly when f fails on some element, and then with the
      error of the first such element. */
  lemma {:induction false} MapResultFails<A, B>(f: A -> Result<B>, xs: seq<A>)
    ensures MapResult(f, xs).Err? <==> exists i :: 0 <= i < |xs| && f(xs[i]).Err?
    ensures MapResult(f, xs).Err? ==>
      exists i :: FirstFailure(f, xs, i) && f(xs[i]).error == MapResult(f, xs).error
  {
    if xs != [] {
      var n := |xs| - 1;
      var init := xs[..n];
      MapResultFails(f, init);
      if MapResult(f, init).Err? {
        var i :| FirstFailure(f, init, i) && f(init[i]).error == MapResult(f, init).error;
        assert xs[i] == init[i];
        forall j | 0 <= j < i ensures f(xs[j]).Ok? {
          assert xs[j] == init[j];
        }
        assert FirstFailure(f, xs, i);
      } else {
        forall j | 0 <= j < n ensures f(xs[j]).Ok? {
          assert xs[j] == init[j];
        }
        if f(xs[n]).Err? {
          assert FirstFailure(f, xs, n);
        }
      }
    }
  }

  /** Element i is the first on which f fails. */
  predicate FirstFailure<A, B>(f: A -> Result<B>, xs: seq<A>, i: int)
  {
    0 <= i < |xs| && f(xs[i]).Err? && forall j :: 0 <= j < i ==> f(xs[j]).Ok?
  }
}
