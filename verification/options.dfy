/** The optional value used for the model's failure paths: `None` stands for
    "no value" or, where a document says so, for a Python exception. */
module Options {

  datatype Option<+T> = None | Some(value: T) {

    /** The carried value, or `default` when there is none. */
    function GetOr(default: T): T {
      match this
      case Some(v) => v
      case None => default
    }
  }

  /** Applies `f` to every element, failing as soon as one application
      fails: Python's loop that stops at the first exception. */
  function MapAll<A, B>(xs: seq<A>, f: A -> Option<B>): (r: Option<seq<B>>)
    ensures r.None? <==> exists k :: 0 <= k < |xs| && f(xs[k]).None?
    ensures r.Some? ==> |r.value| == |xs|
    ensures r.Some? ==> forall k :: 0 <= k < |xs| ==> f(xs[k]) == Some(r.value[k])
    decreases |xs|
  {
    if |xs| == 0 then Some([])
    else
      match f(xs[0])
      case None => None
      case Some(first) =>
        match MapAll(xs[1..], f)
        case None =>
          var k :| 0 <= k < |xs[1..]| && f(xs[1..][k]).None?;
          assert xs[k + 1] == xs[1..][k];
          None
        case Some(rest) =>
          var r := [first] + rest;
          assert forall k :: 1 <= k < |xs| ==> xs[k] == xs[1..][k - 1] && r[k] == rest[k - 1];
          Some(r)
  }

  /** The results of applying `f` in order up to, not including, the first
      application that fails: what such a loop has done when it stops. */
  function MapUntil<A, B>(xs: seq<A>, f: A -> Option<B>): (r: seq<B>)
    ensures |r| <= |xs|
    ensures forall k :: 0 <= k < |r| ==> f(xs[k]) == Some(r[k])
    ensures |r| < |xs| ==> f(xs[|r|]).None?
    decreases |xs|
  {
    if |xs| == 0 then []
    else
      match f(xs[0])
      case None => []
      case Some(first) =>
        var rest := MapUntil(xs[1..], f);
        var r := [first] + rest;
        assert forall k :: 1 <= k < |r| ==> xs[k] == xs[1..][k - 1] && r[k] == rest[k - 1];
        r
  }

  /** The loop stops early exactly when it fails, and otherwise has done
      everything. */
  lemma MapUntilStops<A, B>(xs: seq<A>, f: A -> Option<B>)
    ensures MapAll(xs, f).None? <==> |MapUntil(xs, f)| < |xs|
    ensures MapAll(xs, f).Some? ==> MapUntil(xs, f) == MapAll(xs, f).value
  {
  }
}
