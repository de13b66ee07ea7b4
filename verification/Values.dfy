/** Small values shared by all components. */
module Values {

  datatype Option<+T> = None | Some(value: T)

  const MAX_UINT64 := 0xFFFF_FFFF_FFFF_FFFF

  type Uint64 = n: nat | n <= MAX_UINT64

  /** Plain equality, stated generically: the verifier then compares maps as values, not entry by entry. */
  ghost predicate Is<T>(x: T, y: T) {
    x == y
  }

  function Min(a: nat, b: nat): nat {
    if a < b then a else b
  }

  function Max(a: nat, b: nat): nat {
    if a < b then b else a
  }

  /** The last element of a sequence. */
  function Last<T>(s: seq<T>): T
    requires s != []
  {
    s[|s| - 1]
  }

  function Zip<A, B>(x: seq<A>, y: seq<B>): seq<(A, B)>
    requires |x| == |y|
  {
    seq(|x|, i requires 0 <= i < |x| => (x[i], y[i]))
  }

  lemma ZipMore<A, B>(x: seq<A>, y: seq<B>, a: A, b: B)
    requires |x| == |y|
    ensures Zip(x + [a], y + [b]) == Zip(x, y) + [(a, b)]
  {
  }

  ghost predicate TraceAt<S, O>(rel: (S, O, S) -> bool, states: seq<S>, steps: seq<O>, i: nat)
    requires |states| == |steps| + 1 && i < |steps|
  {
    rel(states[i], steps[i], states[i + 1])
  }

  /** The states of a run, from before its first step to after its last, neighbours related by `rel`. */
  ghost predicate Trace<S, O>(rel: (S, O, S) -> bool, states: seq<S>, steps: seq<O>) {
    && |states| == |steps| + 1
    && forall i: nat {:trigger TraceAt(rel, states, steps, i)} | i < |steps| :: TraceAt(rel, states, steps, i)
  }

  lemma TraceMore<S, O>(rel: (S, O, S) -> bool, states: seq<S>, steps: seq<O>, step: O, s: S)
    requires Trace(rel, states, steps) && rel(Last(states), step, s)
    ensures Trace(rel, states + [s], steps + [step])
  {
    var states', steps' := states + [s], steps + [step];
    forall i: nat | i < |steps'|
      ensures TraceAt(rel, states', steps', i)
    {
      if i < |steps| {
        assert TraceAt(rel, states, steps, i);
      }
    }
  }
}
