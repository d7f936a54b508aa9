/** Taking inputs one after the other, as long as each is accepted. */
module Steps {
  import opened Types

  ghost function Fold<S(!new), A(!new)>(step: (S, A) -> Option<S>, s: S, inputs: seq<A>): Option<S>
    decreases |inputs|
  {
    if inputs == [] then Some(s)
    else if step(s, inputs[0]).None? then None
    else Fold(step, step(s, inputs[0]).value, inputs[1..])
  }

  /** Taking the inputs one after the other leads from s to t. */
  ghost predicate Leads<S(!new), A(!new)>(step: (S, A) -> Option<S>, s: S, inputs: seq<A>, t: S)
  {
    Fold(step, s, inputs) == Some(t)
  }

  lemma {:induction false} LeadsAppend<S(!new), A(!new)>(
    step: (S, A) -> Option<S>, s: S, a: seq<A>, mid: S, b: seq<A>, t: S)
    requires Leads(step, s, a, mid) && Leads(step, mid, b, t)
    ensures Leads(step, s, a + b, t)
    decreases |a|
  {
    if a == [] {
      assert a + b == b;
    } else {
      LeadsAppend(step, step(s, a[0]).value, a[1..], mid, b, t);
      assert (a + b)[1..] == a[1..] + b && (a + b)[0] == a[0];
    }
  }

  lemma LeadsOne<S(!new), A(!new)>(step: (S, A) -> Option<S>, s: S, a: A, t: S)
    ensures Leads(step, s, [a], t) <==> step(s, a) == Some(t)
  {
    var one := [a];
    assert one[0] == a && one[1..] == [];
    if step(s, a).Some? {
      assert Fold(step, step(s, a).value, one[1..]) == Some(step(s, a).value);
    }
  }

  /** The first input is accepted, and the rest leads on from there. */
  lemma LeadsFirst<S(!new), A(!new)>(step: (S, A) -> Option<S>, s: S, inputs: seq<A>, t: S)
    requires Leads(step, s, inputs, t) && inputs != []
    ensures step(s, inputs[0]).Some? && Leads(step, step(s, inputs[0]).value, inputs[1..], t)
  {
  }

  /** A prefix of an accepted sequence is accepted. */
  lemma {:induction false} LeadsPrefix<S(!new), A(!new)>(step: (S, A) -> Option<S>, s: S, inputs: seq<A>, t: S, i: nat)
    returns (mid: S)
    requires Leads(step, s, inputs, t) && i <= |inputs|
    ensures Leads(step, s, inputs[..i], mid) && Leads(step, mid, inputs[i..], t)
    decreases i
  {
    if i == 0 {
      mid := s;
      assert inputs[0..] == inputs;
    } else {
      mid := LeadsPrefix(step, step(s, inputs[0]).value, inputs[1..], t, i - 1);
      assert inputs[1..][..i - 1] == inputs[..i][1..] && inputs[1..][i - 1..] == inputs[i..];
    }
  }

  // ---------- turns that ask for another turn ----------

  /** The state after one turn, its verdict, and whether another turn is wanted. */
  datatype Turn<S> = Turn(state: S, ok: bool, more: bool)

  /** At most n turns, as long as another one is wanted. */
  ghost function Repeat<S(!new)>(turn: S -> Option<Turn<S>>, s: S, n: nat): Option<Turn<S>>
    decreases n
  {
    if n == 0 then Some(Turn(s, true, true))
    else if turn(s).None? || !turn(s).value.more then turn(s)
    else Repeat(turn, turn(s).value.state, n - 1)
  }

  /** Each turn closes the gap, or closes it by at least the stride and asks for more. */
  ghost predicate Closes<S(!new)>(turn: S -> Option<Turn<S>>, good: S -> bool, gap: S -> nat, stride: nat)
  {
    forall s {:trigger turn(s)} :: good(s) ==>
      && turn(s).Some? && turn(s).value.ok && good(turn(s).value.state)
      && (if turn(s).value.more then gap(turn(s).value.state) + stride <= gap(s) else gap(turn(s).value.state) == 0)
  }

  lemma {:induction false} RepeatEnds<S(!new)>(turn: S -> Option<Turn<S>>, good: S -> bool, gap: S -> nat, stride: nat,
                                               s: S, n: nat)
    requires Closes(turn, good, gap, stride) && good(s) && n * stride > gap(s)
    ensures var r := Repeat(turn, s, n);
            r.Some? && r.value.ok && !r.value.more && good(r.value.state) && gap(r.value.state) == 0
    decreases n
  {
    assert n > 0;
    if turn(s).value.more {
      assert (n - 1) * stride == n * stride - stride;
      RepeatEnds(turn, good, gap, stride, turn(s).value.state, n - 1);
    }
  }

  /** A turn that changes nothing and asks for more is repeated forever. */
  lemma {:induction false} RepeatStalls<S(!new)>(turn: S -> Option<Turn<S>>, s: S, n: nat, more: bool)
    requires turn(s) == Some(Turn(s, true, more)) && n > 0
    ensures Repeat(turn, s, n) == Some(Turn(s, true, more))
    decreases n
  {
    if more && n > 1 {
      RepeatStalls(turn, s, n - 1, more);
    }
  }

  // ---------- sums ----------

  function Total<A>(weight: A -> nat, xs: seq<A>): nat
  {
    if xs == [] then 0 else Total(weight, xs[..|xs| - 1]) + weight(Last(xs))
  }

  /** Levels that rise by the weight of each element rise by the total. */
  lemma {:induction false} TotalOfLevels<A(!new)>(weight: A -> nat, xs: seq<A>, levels: seq<int>)
    requires |levels| == |xs| + 1
    requires forall i {:trigger xs[i]} :: 0 <= i < |xs| ==> levels[i + 1] == levels[i] + weight(xs[i])
    ensures Last(levels) == levels[0] + Total(weight, xs)
    decreases |xs|
  {
    if xs != [] {
      TotalOfLevels(weight, xs[..|xs| - 1], levels[..|xs|]);
    }
  }
}
