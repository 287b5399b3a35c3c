/** One operation of a batch and the order a canonical batch keeps. */
module Ops {

  /** An add always carries a priority, a drop and a rest row never do: the
      constructors are the checks of `CanonicalOp.__post_init__`. */
  datatype Op = Drop(code: string) | Add(code: string, priority: nat) | Rest(code: string)

  function ActionRank(o: Op): nat {
    match o
    case Drop(_) => 0
    case Add(_, _) => 1
    case Rest(_) => 2
  }

  predicate SameKey(o: Op, p: Op) {
    ActionRank(o) == ActionRank(p) && o.code == p.code
  }

  /** Code-point order on strings. */
  predicate TextLe(a: string, b: string) {
    a == "" || (b != "" && (a[0] < b[0] || (a[0] == b[0] && TextLe(a[1..], b[1..]))))
  }

  /** The texts agree up to `k`, where the first ends or has the smaller
      character. */
  predicate LeAt(a: string, b: string, k: int) {
    && 0 <= k <= |a| && k <= |b| && (forall i :: 0 <= i < k ==> a[i] == b[i])
    && (k == |a| || (k < |b| && a[k] < b[k]))
  }

  lemma {:induction false} TextLeExactly(a: string, b: string)
    ensures TextLe(a, b) <==> exists k :: LeAt(a, b, k)
  {
    if a == "" || b == "" || a[0] != b[0] {
      assert TextLe(a, b) ==> LeAt(a, b, 0);
    } else {
      var x, y := a[1..], b[1..];
      TextLeExactly(x, y);
      if TextLe(a, b) {
        var k :| LeAt(x, y, k);
        assert forall i :: 0 <= i < |x| ==> a[i + 1] == x[i];
        assert forall i :: 0 <= i < |y| ==> b[i + 1] == y[i];
        forall i | 0 <= i < k + 1 ensures a[i] == b[i] {
          assert i > 0 ==> x[i - 1] == y[i - 1];
        }
        assert LeAt(a, b, k + 1);
      }
      forall k | LeAt(a, b, k) ensures TextLe(a, b) {
        assert LeAt(x, y, k - 1);
      }
    }
  }

  predicate KeyLe(o: Op, p: Op) {
    ActionRank(o) < ActionRank(p) || (ActionRank(o) == ActionRank(p) && TextLe(o.code, p.code))
  }

  predicate KeyLt(o: Op, p: Op) {
    KeyLe(o, p) && !SameKey(o, p)
  }

  ghost predicate Sorted(s: seq<Op>) {
    forall i, j :: 0 <= i < j < |s| ==> KeyLe(s[i], s[j])
  }

  ghost predicate StrictlySorted(s: seq<Op>) {
    forall i, j :: 0 <= i < j < |s| ==> KeyLt(s[i], s[j])
  }

  lemma {:induction false} TextLeTotal(a: string, b: string)
    ensures TextLe(a, b) || TextLe(b, a)
  {
    if a != "" && b != "" && a[0] == b[0] {
      TextLeTotal(a[1..], b[1..]);
    }
  }

  lemma {:induction false} TextLeAntisymmetric(a: string, b: string)
    requires TextLe(a, b) && TextLe(b, a)
    ensures a == b
  {
    if a != "" && b != "" {
      TextLeAntisymmetric(a[1..], b[1..]);
      assert a == [a[0]] + a[1..] && b == [b[0]] + b[1..];
    }
  }

  lemma {:induction false} TextLeTransitive(a: string, b: string, c: string)
    requires TextLe(a, b) && TextLe(b, c)
    ensures TextLe(a, c)
  {
    if a != "" && a[0] == b[0] == c[0] {
      TextLeTransitive(a[1..], b[1..], c[1..]);
    }
  }

  lemma KeyLeTotal(o: Op, p: Op)
    ensures KeyLe(o, p) || KeyLe(p, o)
  {
    TextLeTotal(o.code, p.code);
  }

  lemma KeyLeAntisymmetric(o: Op, p: Op)
    requires KeyLe(o, p) && KeyLe(p, o)
    ensures SameKey(o, p)
  {
    TextLeAntisymmetric(o.code, p.code);
  }

  lemma KeyLeTransitive(o: Op, p: Op, q: Op)
    requires KeyLe(o, p) && KeyLe(p, q)
    ensures KeyLe(o, q)
  {
    if ActionRank(o) == ActionRank(p) == ActionRank(q) {
      TextLeTransitive(o.code, p.code, q.code);
    }
  }

  lemma TextLeReflexive(a: string)
    ensures TextLe(a, a)
  {
    TextLeTotal(a, a);
  }
}
