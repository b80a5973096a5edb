/** What a filter leaves of a list, said by places in it. */
module Picking {
  /** `part` is what `at` picks out of `all` in order: each element `keep` holds of, and no other. */
  ghost predicate Picked<T(!new)>(all: seq<T>, part: seq<T>, keep: T -> bool, at: seq<nat>) {
    && |part| == |at|
    && (forall i :: 0 <= i < |at| ==> at[i] < |all| && part[i] == all[at[i]])
    && (forall i, j :: 0 <= i < j < |at| ==> at[i] < at[j])
    && (forall k :: 0 <= k < |all| ==> (keep(all[k]) <==> k in at))
  }

  ghost predicate AreThose<T(!new)>(all: seq<T>, part: seq<T>, keep: T -> bool) {
    exists at :: Picked(all, part, keep, at)
  }

  /** The places in a list one longer in front. */
  function Later(at: seq<nat>): (r: seq<nat>)
    ensures |r| == |at| && forall i :: 0 <= i < |at| ==> r[i] == at[i] + 1
  {
    seq(|at|, i requires 0 <= i < |at| => at[i] + 1)
  }

  lemma InLater(at: seq<nat>, k: nat)
    ensures k in Later(at) <==> k > 0 && k - 1 in at
  {
    if k > 0 && k - 1 in at {
      var i :| 0 <= i < |at| && at[i] == k - 1;
      assert Later(at)[i] == k;
    }
  }

  lemma PickedPast<T(!new)>(all: seq<T>, part: seq<T>, keep: T -> bool, at: seq<nat>)
    requires all != [] && Picked(all[1..], part, keep, at)
    ensures !keep(all[0]) ==> Picked(all, part, keep, Later(at))
    ensures forall k :: 0 < k < |all| ==> (keep(all[k]) <==> k in Later(at))
    ensures forall i :: 0 <= i < |at| ==> Later(at)[i] < |all| && part[i] == all[Later(at)[i]]
  {
    forall k | 0 <= k < |all| ensures k in Later(at) <==> k > 0 && keep(all[k]) {
      InLater(at, k);
      if k > 0 { assert all[1..][k - 1] == all[k]; }
    }
    forall i | 0 <= i < |at| ensures Later(at)[i] < |all| && part[i] == all[Later(at)[i]] {
      assert all[1..][at[i]] == all[at[i] + 1];
    }
  }

  lemma PickedWith<T(!new)>(all: seq<T>, part: seq<T>, keep: T -> bool, later: seq<nat>)
    requires all != [] && keep(all[0]) && |part| == |later|
    requires forall k :: 0 < k < |all| ==> (keep(all[k]) <==> k in later)
    requires forall i :: 0 <= i < |later| ==> 0 < later[i] < |all| && part[i] == all[later[i]]
    requires forall i, j :: 0 <= i < j < |later| ==> later[i] < later[j]
    ensures Picked(all, [all[0]] + part, keep, [0] + later)
  {
    var at := [0] + later;
    forall k | 0 <= k < |all| ensures keep(all[k]) <==> k in at {
      if k == 0 { assert at[0] == 0; }
    }
  }

  lemma PickedMore<T(!new)>(all: seq<T>, part: seq<T>, keep: T -> bool, at: seq<nat>)
    requires all != [] && Picked(all[1..], part, keep, at)
    ensures AreThose(all, if keep(all[0]) then [all[0]] + part else part, keep)
  {
    PickedPast(all, part, keep, at);
    if keep(all[0]) {
      PickedWith(all, part, keep, Later(at));
    }
  }
}
