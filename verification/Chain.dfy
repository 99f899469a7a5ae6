/** The middleware onion: `runChain` with its guard against a second `next()`.

    A middleware is its finite behaviour tree: it returns, throws, or awaits `next()` and goes on
    according to how that call ended. */
module Chain {
  import opened Optional

  datatype Behaviour =
    | Return
    | Throw
    | Next(onSuccess: Behaviour, onFailure: Behaviour)

  /** What a behaviour does when its first `next()` ends as `first` says and each later one throws. */
  function Replay(b: Behaviour, first: Option<bool>): bool {
    match b
    case Return => true
    case Throw => false
    case Next(onSuccess, onFailure) => Replay(if first == Some(true) then onSuccess else onFailure, None)
  }

  /** The onion: each layer wraps the outcome of the layers inside it. */
  function Wrapped(layers: seq<Behaviour>, core: bool): bool {
    if layers == [] then core else Replay(layers[0], Some(Wrapped(layers[1..], core)))
  }

  /** How many layers open, one inside another, before one does not call `next()`. */
  function Depth(layers: seq<Behaviour>): (n: nat)
    ensures n <= |layers|
    ensures n < |layers| ==> !layers[n].Next?
    ensures forall i :: 0 <= i < n ==> layers[i].Next?
  {
    if layers == [] || !layers[0].Next? then 0 else 1 + Depth(layers[1..])
  }

  function Indices(from: nat, n: nat): (r: seq<nat>)
    ensures |r| == n && forall k :: 0 <= k < n ==> r[k] == from + k
  {
    seq(n, k => from + k)
  }

  class Dispatcher {
    const layers: seq<Behaviour>
    const core: bool
    var index: int
    ghost var entered: seq<nat>

    constructor (layers: seq<Behaviour>, core: bool)
      ensures this.layers == layers && this.core == core && index == -1 && entered == []
    {
      this.layers, this.core, index, entered := layers, core, -1, [];
    }

    /** `dispatch(i)`: refused when i was entered before; otherwise the layers from i on run. */
    method Dispatch(i: nat) returns (ok: bool)
      requires i <= |layers| && (i <= index || index == i - 1)
      modifies this
      ensures old(index) >= i ==> !ok && index == old(index) && entered == old(entered)
      ensures old(index) < i ==>
                && ok == Wrapped(layers[i..], core)
                && index == i + Depth(layers[i..])
                && entered == old(entered) + Indices(i, 1 + Depth(layers[i..]))
      decreases |layers| - i, 1
    {
      if i <= index {
        return false;
      }
      index := i;
      entered := entered + [i];
      if i == |layers| {
        return core;
      }
      assert layers[i..][1..] == layers[i + 1..];
      ok := Act(layers[i], i, Some(Wrapped(layers[i + 1..], core)));
    }

    /** A middleware at work; `first` tells what its first `next()` would give, or that it is spent. */
    method Act(b: Behaviour, i: nat, ghost first: Option<bool>) returns (ok: bool)
      requires i < |layers|
      requires if first.Some? then index == i && first.value == Wrapped(layers[i + 1..], core) else i < index
      modifies this
      ensures ok == Replay(b, first)
      ensures first.Some? && b.Next? ==>
                && index == i + 1 + Depth(layers[i + 1..])
                && entered == old(entered) + Indices(i + 1, 1 + Depth(layers[i + 1..]))
      ensures first.None? || !b.Next? ==> index == old(index) && entered == old(entered)
      decreases |layers| - i, 0, b
    {
      match b
      case Return => return true;
      case Throw => return false;
      case Next(onSuccess, onFailure) =>
        var inner := Dispatch(i + 1);
        if inner {
          ok := Act(onSuccess, i, None);
        } else {
          ok := Act(onFailure, i, None);
        }
    }
  }

  /** `runChain`: every layer runs at most once, from the outside in, and the handler is reached
      exactly when every middleware calls `next()`. Index |layers| is the handler. */
  method RunChain(layers: seq<Behaviour>, core: bool) returns (ok: bool, ghost entered: seq<nat>)
    ensures ok == Wrapped(layers, core)
    ensures forall k :: 0 <= k < |entered| ==> entered[k] == k
    ensures forall k :: 0 <= k <= |layers| ==> (k in entered <==> forall i :: 0 <= i < k ==> layers[i].Next?)
  {
    var dispatcher := new Dispatcher(layers, core);
    assert layers[0..] == layers;
    ok := dispatcher.Dispatch(0);
    entered := dispatcher.entered;
    var n := Depth(layers);
    forall k | 0 <= k <= |layers| ensures k in entered <==> forall i :: 0 <= i < k ==> layers[i].Next? {
      assert k <= n ==> entered[k] == k;
      assert n < k ==> !layers[n].Next?;
    }
  }

  predicate Transparent(b: Behaviour) {
    b == Next(Return, Throw)
  }

  /** Layers that call `next()` once and pass its outcome on do not change the outcome. */
  lemma {:induction false} TransparentLayers(layers: seq<Behaviour>, core: bool)
    requires forall i :: 0 <= i < |layers| ==> Transparent(layers[i])
    ensures Wrapped(layers, core) == core
  {
    if layers != [] {
      TransparentLayers(layers[1..], core);
      assert Replay(Return, None) && !Replay(Throw, None);
    }
  }

  /** The first layer that does not call `next()` decides for the transparent ones around it. */
  lemma {:induction false} FirstStopDecides(layers: seq<Behaviour>, n: nat, core: bool)
    requires n < |layers| && !layers[n].Next? && forall i :: 0 <= i < n ==> Transparent(layers[i])
    ensures Wrapped(layers, core) == (layers[n] == Return)
    decreases n
  {
    if n > 0 {
      FirstStopDecides(layers[1..], n - 1, core);
      assert Replay(Return, None) && !Replay(Throw, None);
    }
  }

  /** A layer that answers a failure by returning makes a success of it; what is inside no longer shows. */
  lemma CatchingLayer(rest: seq<Behaviour>, core: bool)
    ensures Wrapped([Next(Return, Return)] + rest, core)
    ensures Wrapped([Next(Throw, Return)] + rest, core) == !Wrapped(rest, core)
  {
    var a, b := [Next(Return, Return)] + rest, [Next(Throw, Return)] + rest;
    assert a[1..] == rest && b[1..] == rest;
    assert Replay(Return, None) && !Replay(Throw, None);
  }

  /** A second `next()` always fails, however the first one ended. */
  lemma SecondNextFails(first: Behaviour, rest: seq<Behaviour>, core: bool)
    requires first == Next(Return, Throw)
    ensures Wrapped([Next(first, first)] + rest, core) == false
  {
    var all := [Next(first, first)] + rest;
    assert all[1..] == rest;
    assert Replay(first, None) == Replay(Throw, None) == false;
  }
}
