// The do-while loops of the operators that draw nodes until one passes a
// test: `sbTree.getNode(Randomizer.nextInt(n))` until the test accepts it.
// The draws are a parameter consumed left to right, each taken modulo the
// node count n; running out of draws is the model's DrawsExhausted.

module NodeDraws {
  import opened Wrappers

  /**
   * A do-while over node draws: the node of the first draw that `ok`
   * accepts, and that draw's index.
   */
  function FirstAccepted(n: nat, picks: seq<nat>, ok: int -> bool): (r: Result<(int, nat)>)
    requires n > 0
    ensures r.Ok? ==> r.value.1 < |picks| && r.value.0 == picks[r.value.1] % n && ok(r.value.0)
    ensures r.Ok? ==> forall j :: 0 <= j < r.value.1 ==> !ok(picks[j] % n)
    ensures r.Fail? <==> forall j :: 0 <= j < |picks| ==> !ok(picks[j] % n)
    ensures r.Fail? ==> r.error == DrawsExhausted
    decreases |picks|
  {
    if |picks| == 0 then Fail(DrawsExhausted)
    else if ok(picks[0] % n) then Ok((picks[0] % n, 0))
    else
      var rest := FirstAccepted(n, picks[1..], ok);
      assert forall j :: 0 <= j < |picks| - 1 ==> picks[1..][j] == picks[j + 1];
      if rest.Fail? then rest else Ok((rest.value.0, rest.value.1 + 1))
  }

  /** A do-while over node draws as FirstAccepted states it. */
  method DrawUntil(n: nat, picks: seq<nat>, ok: int -> bool) returns (r: Result<(int, nat)>)
    requires n > 0
    ensures r == FirstAccepted(n, picks, ok)
  {
    var i := 0;
    while i < |picks|
      invariant 0 <= i <= |picks|
      invariant forall j :: 0 <= j < i ==> !ok(picks[j] % n)
      invariant FirstAccepted(n, picks, ok) ==
        match FirstAccepted(n, picks[i..], ok)
        case Fail(e) => Fail(e)
        case Ok((k, at)) => Ok((k, at + i))
      decreases |picks| - i
    {
      assert picks[i..][0] == picks[i] && picks[i..][1..] == picks[i + 1..];
      if ok(picks[i] % n) {
        return Ok((picks[i] % n, i));
      }
      i := i + 1;
    }
    return Fail(DrawsExhausted);
  }
}
