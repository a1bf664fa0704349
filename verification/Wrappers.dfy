/** The option and result types shared by every module of the model, and the
    few facts about sequences that several of them use. */
module Wrappers {
  datatype Option<+T> = None | Some(value: T)

  datatype Result<+R, +E> = Ok(value: R) | Err(error: E)

  function SetOf<T>(s: seq<T>): set<T> {
    set x | x in s
  }

  ghost predicate Distinct<T>(s: seq<T>) {
    forall i, j :: 0 <= i < j < |s| ==> s[i] != s[j]
  }

  lemma DistinctAppend<T>(a: seq<T>, b: seq<T>)
    requires Distinct(a) && Distinct(b)
    requires forall x :: x in a ==> x !in b
    ensures Distinct(a + b)
  {
    forall i, j | 0 <= i < j < |a + b|
      ensures (a + b)[i] != (a + b)[j]
    {
      if i < |a| <= j {
        assert a[i] in a && b[j - |a|] in b;
      }
    }
  }

  /** The first position of `x`, or the length. */
  function IndexOf<T(==)>(s: seq<T>, x: T): (k: nat)
    ensures k <= |s| && (x in s <==> k < |s|)
    ensures k < |s| ==> s[k] == x
    ensures forall j :: 0 <= j < k ==> s[j] != x
  {
    if s == [] || s[0] == x then 0 else 1 + IndexOf(s[1..], x)
  }

  /** `out` holds the elements at the positions `at` of `s`: those `keep` accepts, all of them, in order. */
  ghost predicate PicksAt<T>(s: seq<T>, keep: T -> bool, out: seq<T>, at: seq<nat>) {
    && |at| == |out|
    && (forall i, j :: 0 <= i < j < |at| ==> at[i] < at[j])
    && (forall i :: 0 <= i < |at| ==> at[i] < |s| && out[i] == s[at[i]] && keep(s[at[i]]))
    && (forall k :: 0 <= k < |s| && keep(s[k]) ==> k in at)
  }

  /** `out` is what `keep` accepts of `s`, as often and in the order it stands there. */
  ghost predicate Picks<T>(s: seq<T>, keep: T -> bool, out: seq<T>) {
    exists at :: PicksAt(s, keep, out, at)
  }

  lemma PicksNone<T>(keep: T -> bool)
    ensures Picks([], keep, [])
  {
    assert PicksAt([], keep, [], []);
  }

  lemma PicksSnoc<T>(s: seq<T>, x: T, keep: T -> bool, out: seq<T>)
    requires Picks(s, keep, out)
    ensures Picks(s + [x], keep, if keep(x) then out + [x] else out)
  {
    var at: seq<nat> :| PicksAt(s, keep, out, at);
    if keep(x) {
      PicksAtLast(s, x, keep, out, at);
    } else {
      assert PicksAt(s + [x], keep, out, at);
    }
  }

  lemma PicksAtLast<T>(s: seq<T>, x: T, keep: T -> bool, out: seq<T>, at: seq<nat>)
    requires PicksAt(s, keep, out, at) && keep(x)
    ensures PicksAt(s + [x], keep, out + [x], at + [|s|])
  {
    var at', s' := at + [|s|], s + [x];
    forall i | 0 <= i < |at'|
      ensures at'[i] < |s'| && (out + [x])[i] == s'[at'[i]] && keep(s'[at'[i]])
      ensures forall j :: i < j < |at'| ==> at'[i] < at'[j]
    {
      if i < |at| {
        assert at'[i] == at[i] && at[i] < |s| && s'[at[i]] == s[at[i]];
      }
    }
    forall k | 0 <= k < |s'| && keep(s'[k])
      ensures k in at'
    {
      assert k < |s| ==> s'[k] == s[k] && k in at;
      assert at'[|at|] == |s|;
    }
  }

  lemma PicksMembers<T>(s: seq<T>, keep: T -> bool, out: seq<T>, x: T)
    requires Picks(s, keep, out)
    ensures x in out <==> x in s && keep(x)
  {
    var at: seq<nat> :| PicksAt(s, keep, out, at);
    if x in out {
      PickedIsKept(s, keep, out, at, x);
    } else if x in s && keep(x) {
      KeptIsPicked(s, keep, out, at, x);
    }
  }

  lemma PickedIsKept<T>(s: seq<T>, keep: T -> bool, out: seq<T>, at: seq<nat>, x: T)
    requires PicksAt(s, keep, out, at) && x in out
    ensures x in s && keep(x)
  {
    var i :| 0 <= i < |out| && out[i] == x;
    assert out[i] == s[at[i]];
  }

  lemma KeptIsPicked<T>(s: seq<T>, keep: T -> bool, out: seq<T>, at: seq<nat>, x: T)
    requires PicksAt(s, keep, out, at) && x in s && keep(x)
    ensures x in out
  {
    var k :| 0 <= k < |s| && s[k] == x;
    assert k in at;
    var i :| 0 <= i < |at| && at[i] == k;
    assert out[i] == s[at[i]];
  }
}
