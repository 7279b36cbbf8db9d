/** MonoBehaviour.Invoke and CancelInvoke as explicit state: a script's pending invocations are a sequence,
    Invoke appends to it, CancelInvoke removes from it, and the engine later runs the one that falls due. */
module Invocations {

  /** The methods the core scripts schedule by name. */
  datatype Callback = DealDamageToPlayer | StartSpellCast | DealDamage

  /** `Invoke(nameof(callback), delay)`. */
  datatype Invocation = Invocation(callback: Callback, delay: real)

  /** Some invocation of `c` is pending. */
  predicate Scheduled(pending: seq<Invocation>, c: Callback)
  {
    exists i :: 0 <= i < |pending| && pending[i].callback == c
  }

  /** How many invocations of `c` are pending. */
  function CountOf(pending: seq<Invocation>, c: Callback): (n: nat)
    ensures n <= |pending|
    ensures n > 0 <==> Scheduled(pending, c)
  {
    if pending == [] then 0
    else
      var rest := CountOf(pending[1..], c);
      assert forall i :: 0 < i < |pending| ==> pending[i] == pending[1..][i - 1];
      rest + if pending[0].callback == c then 1 else 0
  }

  /** `CancelInvoke(nameof(c))`: every pending invocation of `c` is dropped, the others are kept. */
  function Cancel(pending: seq<Invocation>, c: Callback): (r: seq<Invocation>)
    ensures |r| <= |pending|
    ensures !Scheduled(r, c)
    ensures forall inv :: inv in r ==> inv in pending
    ensures forall inv :: inv in pending && inv.callback != c ==> inv in r
    ensures !Scheduled(pending, c) ==> r == pending
  {
    if pending == [] then []
    else
      var rest := Cancel(pending[1..], c);
      assert forall i :: 0 < i < |pending| ==> pending[i] == pending[1..][i - 1];
      if pending[0].callback == c then rest else [pending[0]] + rest
  }

  /** Cancelling one callback leaves the count of every other callback as it was. */
  lemma {:induction false} CancelKeepsOthers(pending: seq<Invocation>, c: Callback, other: Callback)
    requires other != c
    ensures CountOf(Cancel(pending, c), other) == CountOf(pending, other)
  {
    if pending != [] {
      CancelKeepsOthers(pending[1..], c, other);
      if pending[0].callback != c {
        assert ([pending[0]] + Cancel(pending[1..], c))[1..] == Cancel(pending[1..], c);
      }
    }
  }
}
