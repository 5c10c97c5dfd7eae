/** The requests to the slab pool. Which of them it grants is an input: request number i
    is granted if and only if slab(i). */
module SlabRequests {
  predicate Granted(slab: nat -> bool, from: nat, n: nat) {
    forall i :: from <= i < from + n ==> slab(i)
  }

  /** How many of the first r requests were refused. */
  function Refusals(slab: nat -> bool, r: nat): nat {
    if r == 0 then 0 else Refusals(slab, r - 1) + if slab(r - 1) then 0 else 1
  }

  /** An operation that asks for up to n blocks and stops at the first refusal went from
      request r to r'. */
  ghost predicate Spent(slab: nat -> bool, r: nat, r': nat, n: nat, ok: bool) {
    && (ok <==> Granted(slab, r, n))
    && (if ok then r' == r + n else r < r' <= r + n && Granted(slab, r, r' - 1 - r) && !slab(r' - 1))
  }

  lemma SpentNothing(slab: nat -> bool, r: nat)
    ensures Spent(slab, r, r, 0, true)
  {
  }

  lemma SpentOne(slab: nat -> bool, r: nat)
    ensures Spent(slab, r, r + 1, 1, slab(r))
  {
  }

  lemma SpentMore(slab: nat -> bool, r: nat, r1: nat, r2: nat, n1: nat, n2: nat, ok: bool)
    requires Spent(slab, r, r1, n1, true) && Spent(slab, r1, r2, n2, ok)
    ensures Spent(slab, r, r2, n1 + n2, ok)
  {
    assert Granted(slab, r, n1 + n2) ==> Granted(slab, r1, n2);
  }

  lemma SpentStop(slab: nat -> bool, r: nat, r1: nat, n1: nat, n2: nat)
    requires Spent(slab, r, r1, n1, false)
    ensures Spent(slab, r, r1, n1 + n2, false)
  {
    assert !slab(r1 - 1);
  }

  lemma {:induction false} GrantedRefusals(slab: nat -> bool, r: nat, n: nat)
    requires Granted(slab, r, n)
    ensures Refusals(slab, r + n) == Refusals(slab, r)
    decreases n
  {
    if n > 0 {
      GrantedRefusals(slab, r, n - 1);
    }
  }

  lemma SpentRefusals(slab: nat -> bool, r: nat, r': nat, n: nat, ok: bool)
    requires Spent(slab, r, r', n, ok)
    ensures Refusals(slab, r') == Refusals(slab, r) + if ok then 0 else 1
  {
    GrantedRefusals(slab, r, if ok then n else r' - 1 - r);
  }

  /** Two parts of an operation, the second one only if the first had all it asked for. */
  lemma SpentBoth(slab: nat -> bool, r: nat, r1: nat, r2: nat, n1: nat, n2: nat, ok1: bool, ok: bool)
    requires Spent(slab, r, r1, n1, ok1)
    requires if ok1 then Spent(slab, r1, r2, n2, ok) else r2 == r1 && !ok
    ensures Spent(slab, r, r2, n1 + n2, ok)
    ensures Refusals(slab, r2) == Refusals(slab, r) + if ok then 0 else 1
  {
    if ok1 {
      SpentMore(slab, r, r1, r2, n1, n2, ok);
    } else {
      SpentStop(slab, r, r1, n1, n2);
    }
    hide Spent;
    SpentRefusals(slab, r, r2, n1 + n2, ok);
  }
}
