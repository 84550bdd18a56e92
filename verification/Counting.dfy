/** Counting the set flags of a sequence. */
module Counting {

  function Count(flags: seq<bool>): nat {
    if flags == [] then 0 else (if flags[|flags| - 1] then 1 else 0) + Count(flags[..|flags| - 1])
  }

  lemma {:induction false} CountSet(flags: seq<bool>, i: nat)
    requires i < |flags| && !flags[i]
    ensures Count(flags[i := true]) == Count(flags) + 1
  {
    var n := |flags| - 1;
    if i == n {
      assert flags[i := true][..n] == flags[..n];
    } else {
      CountSet(flags[..n], i);
      assert flags[i := true][..n] == flags[..n][i := true];
    }
  }

  lemma {:induction false} CountBounds(flags: seq<bool>, n: nat)
    requires n <= |flags| && forall i | n <= i < |flags| :: !flags[i]
    ensures Count(flags) <= n
    ensures Count(flags) == n <==> forall i | 0 <= i < n :: flags[i]
  {
    if |flags| > 0 {
      var m := |flags| - 1;
      if n == |flags| {
        CountBounds(flags[..m], m);
      } else {
        CountBounds(flags[..m], n);
      }
    }
  }

  lemma CountClear(flags: seq<bool>, i: nat)
    requires i < |flags| && flags[i]
    ensures Count(flags[i := false]) == Count(flags) - 1
  {
    CountSet(flags[i := false], i);
    assert flags[i := false][i := true] == flags;
  }

  lemma {:induction false} CountNone(flags: seq<bool>)
    ensures Count(flags) == 0 <==> forall i | 0 <= i < |flags| :: !flags[i]
  {
    if flags != [] {
      CountNone(flags[..|flags| - 1]);
    }
  }

  lemma CountSnoc(flags: seq<bool>, b: bool)
    ensures Count(flags + [b]) == Count(flags) + if b then 1 else 0
  {
    assert (flags + [b])[..|flags|] == flags;
  }

  /** Every flag is set in exactly one of two complementary sequences. */
  lemma {:induction false} CountSplit(all: seq<bool>, a: seq<bool>, b: seq<bool>)
    requires |all| == |a| == |b| && forall i | 0 <= i < |all| :: all[i] == (a[i] || b[i]) && !(a[i] && b[i])
    ensures Count(all) == Count(a) + Count(b)
  {
    if all != [] {
      var n := |all| - 1;
      CountSplit(all[..n], a[..n], b[..n]);
    }
  }
}
