/** `write/canonical.py`, the batch half: sort by (action, code), then collapse
    the neighbours that share both. */
module Canonical {
  import opened Ops

  // ---------- the functions the loops compute ----------

  /** `sorted` is stable: an op goes in front of the equal keys behind it. */
  function Insert(o: Op, s: seq<Op>): seq<Op> {
    if s == [] then [o]
    else if KeyLe(o, s[0]) then [o] + s
    else [s[0]] + Insert(o, s[1..])
  }

  function Sort(ops: seq<Op>): seq<Op> {
    if ops == [] then [] else Insert(ops[0], Sort(ops[1..]))
  }

  function Collapse(s: seq<Op>): seq<Op> {
    if s == [] then []
    else
      var kept := Collapse(s[..|s| - 1]);
      var op := s[|s| - 1];
      if kept != [] && SameKey(kept[|kept| - 1], op) then kept else kept + [op]
  }

  function Canon(ops: seq<Op>): seq<Op> {
    Collapse(Sort(ops))
  }

  method CanonicalOps(ops: seq<Op>) returns (collapsed: seq<Op>)
    ensures collapsed == Canon(ops)
    ensures StrictlySorted(collapsed)
    ensures forall o :: o in collapsed <==> IsFirst(ops, o)
  {
    var ordered := Sort(ops);
    collapsed := [];
    for i := 0 to |ordered|
      invariant collapsed == Collapse(ordered[..i])
    {
      assert ordered[..i + 1][..i] == ordered[..i];
      if collapsed != [] && SameKey(collapsed[|collapsed| - 1], ordered[i]) {
        continue;
      }
      collapsed := collapsed + [ordered[i]];
    }
    assert ordered[..|ordered|] == ordered;
    CanonKeepsFirsts(ops);
  }

  /** In a canonical batch drops come before adds and adds before rest rows, and
      ops of one kind have ascending codes. */
  lemma CanonOrder(ops: seq<Op>, i: nat, j: nat)
    requires i < j < |Canon(ops)|
    ensures var o, p := Canon(ops)[i], Canon(ops)[j];
      && (o.Add? ==> !p.Drop?) && (o.Rest? ==> p.Rest?)
      && ((o.Drop? && p.Drop?) || (o.Add? && p.Add?) || (o.Rest? && p.Rest?) ==>
            o.code != p.code && TextLe(o.code, p.code))
  {
    CanonKeepsFirsts(ops);
    assert KeyLt(Canon(ops)[i], Canon(ops)[j]);
  }

  // ---------- what a batch says about each key ----------

  ghost predicate HasKey(ops: seq<Op>, k: Op) {
    exists i :: 0 <= i < |ops| && SameKey(ops[i], k)
  }

  /** The op that speaks for `k`'s (action, code): the earliest one. */
  ghost function FirstOf(ops: seq<Op>, k: Op): (r: Op)
    requires HasKey(ops, k)
    ensures r in ops && SameKey(r, k)
  {
    if SameKey(ops[0], k) then ops[0]
    else
      var i :| 0 <= i < |ops| && SameKey(ops[i], k);
      assert SameKey(ops[1..][i - 1], k);
      FirstOf(ops[1..], k)
  }

  lemma {:induction false} FirstPlace(ops: seq<Op>, k: Op) returns (i: nat)
    requires HasKey(ops, k)
    ensures i < |ops| && ops[i] == FirstOf(ops, k) && forall j :: 0 <= j < i ==> !SameKey(ops[j], k)
  {
    i := 0;
    if !SameKey(ops[0], k) {
      var j :| 0 <= j < |ops| && SameKey(ops[j], k);
      assert SameKey(ops[1..][j - 1], k);
      var rest := FirstPlace(ops[1..], k);
      i := rest + 1;
    }
  }

  ghost predicate IsFirst(ops: seq<Op>, o: Op) {
    HasKey(ops, o) && FirstOf(ops, o) == o
  }

  /** Two batches that name the same keys and whose earliest ops agree. */
  ghost predicate SameFirst(a: seq<Op>, b: seq<Op>, k: Op) {
    (HasKey(a, k) <==> HasKey(b, k)) && (HasKey(a, k) ==> FirstOf(a, k) == FirstOf(b, k))
  }

  /** No two adds of one code with different priorities. */
  ghost predicate Agree(ops: seq<Op>) {
    forall i, j :: 0 <= i < j < |ops| && SameKey(ops[i], ops[j]) ==> ops[i] == ops[j]
  }

  lemma HasKeyCons(o: Op, s: seq<Op>, k: Op)
    ensures HasKey([o] + s, k) <==> SameKey(o, k) || HasKey(s, k)
    ensures HasKey([o] + s, k) ==> FirstOf([o] + s, k) == if SameKey(o, k) then o else FirstOf(s, k)
  {
    var os := [o] + s;
    assert os[1..] == s;
    if HasKey(s, k) {
      var i :| 0 <= i < |s| && SameKey(s[i], k);
      assert SameKey(os[i + 1], k);
    }
    if HasKey(os, k) {
      var i :| 0 <= i < |os| && SameKey(os[i], k);
      if i > 0 {
        assert SameKey(s[i - 1], k);
      } else {
        assert SameKey(os[0], k);
      }
    }
    if SameKey(o, k) {
      assert SameKey(os[0], k);
    }
  }

  lemma {:induction false} FirstOfMember(s: seq<Op>, i: nat)
    requires i < |s| && Agree(s)
    ensures HasKey(s, s[i]) && FirstOf(s, s[i]) == s[i]
  {
    assert SameKey(s[i], s[i]);
    assert FirstOf(s, s[i]) in s;
    var j :| 0 <= j < |s| && s[j] == FirstOf(s, s[i]);
    assert j != i ==> SameKey(s[i], s[j]) && SameKey(s[j], s[i]);
  }

  // ---------- the sort ----------

  lemma {:induction false} InsertKeeps(o: Op, s: seq<Op>)
    requires Sorted(s)
    ensures Sorted(Insert(o, s))
    ensures forall k :: SameFirst(Insert(o, s), [o] + s, k)
    ensures forall x :: x in Insert(o, s) <==> x == o || x in s
    decreases |s|
  {
    if s == [] || KeyLe(o, s[0]) {
      assert s == [] ==> [o] + s == [o];
      if s != [] {
        forall j | 0 <= j < |s| ensures KeyLe(o, s[j]) {
          if j > 0 {
            KeyLeTransitive(o, s[0], s[j]);
          }
        }
      }
    } else {
      var t := s[1..];
      var r := Insert(o, t);
      InsertKeeps(o, t);
      KeyLeTotal(o, s[0]);
      forall j | 0 <= j < |r| ensures KeyLe(s[0], r[j]) {
        assert r[j] in r;
        assert r[j] == o || r[j] in t;
      }
      forall k ensures SameFirst([s[0]] + r, [o] + s, k) {
        assert s == [s[0]] + t;
        HasKeyCons(s[0], r, k);
        HasKeyCons(s[0], t, k);
        HasKeyCons(o, s, k);
        HasKeyCons(o, t, k);
        assert SameFirst(r, [o] + t, k);
        if SameKey(s[0], k) && SameKey(o, k) {
          TextLeReflexive(o.code);
          assert false;
        }
      }
      assert s == [s[0]] + t;
    }
  }

  lemma {:induction false} SortKeeps(ops: seq<Op>)
    ensures Sorted(Sort(ops))
    ensures forall k :: SameFirst(Sort(ops), ops, k)
  {
    if ops != [] {
      var rest := ops[1..];
      SortKeeps(rest);
      InsertKeeps(ops[0], Sort(rest));
      forall k ensures SameFirst(Sort(ops), ops, k) {
        assert ops == [ops[0]] + rest;
        assert SameFirst(Sort(ops), [ops[0]] + Sort(rest), k);
        HasKeyCons(ops[0], rest, k);
        HasKeyCons(ops[0], Sort(rest), k);
        assert SameFirst(Sort(rest), rest, k);
      }
    }
  }

  // ---------- the collapse ----------

  lemma {:induction false} FirstOfSnoc(s: seq<Op>, o: Op, k: Op)
    ensures HasKey(s + [o], k) <==> HasKey(s, k) || SameKey(o, k)
    ensures HasKey(s + [o], k) ==> FirstOf(s + [o], k) == if HasKey(s, k) then FirstOf(s, k) else o
  {
    if s == [] {
      assert s + [o] == [o] + [];
      HasKeyCons(o, [], k);
    } else {
      var t := s[1..];
      FirstOfSnoc(t, o, k);
      assert s + [o] == [s[0]] + (t + [o]) && s == [s[0]] + t;
      HasKeyCons(s[0], t + [o], k);
      HasKeyCons(s[0], t, k);
    }
  }

  lemma {:induction false} CollapseKeeps(s: seq<Op>)
    requires Sorted(s)
    ensures StrictlySorted(Collapse(s))
    ensures s != [] ==> Collapse(s) != [] && SameKey(Collapse(s)[|Collapse(s)| - 1], s[|s| - 1])
    ensures forall x :: x in Collapse(s) ==> x in s
    ensures forall k :: SameFirst(Collapse(s), s, k)
  {
    hide SameFirst, KeyLe, FirstOf, HasKey;
    if s != [] {
      var front, op := s[..|s| - 1], s[|s| - 1];
      var kept := Collapse(front);
      CollapseKeeps(front);
      assert s == front + [op];
      if kept != [] && SameKey(kept[|kept| - 1], op) {
        forall k ensures SameFirst(kept, s, k) {
          SkippedSameFirst(kept, front, op, k);
        }
      } else {
        forall i | 0 <= i < |kept| ensures KeyLt(kept[i], op) {
          KeptBelow(kept, front, op, i);
        }
        forall k ensures SameFirst(kept + [op], s, k) {
          KeptSameFirst(kept, front, op, k);
        }
      }
    } else {
      forall k ensures SameFirst([], [], k) {
        NothingSame(k);
      }
    }
  }

  lemma NothingSame(k: Op)
    ensures SameFirst([], [], k)
  {
  }

  lemma SkippedSameFirst(kept: seq<Op>, front: seq<Op>, op: Op, k: Op)
    requires SameFirst(kept, front, k) && kept != [] && SameKey(kept[|kept| - 1], op)
    ensures SameFirst(kept, front + [op], k)
  {
    FirstOfSnoc(front, op, k);
    if SameKey(op, k) {
      assert SameKey(kept[|kept| - 1], k);
    }
  }

  lemma KeptSameFirst(kept: seq<Op>, front: seq<Op>, op: Op, k: Op)
    requires SameFirst(kept, front, k)
    ensures SameFirst(kept + [op], front + [op], k)
  {
    FirstOfSnoc(front, op, k);
    FirstOfSnoc(kept, op, k);
  }

  lemma KeptBelow(kept: seq<Op>, front: seq<Op>, op: Op, i: nat)
    requires StrictlySorted(kept) && Sorted(front + [op]) && i < |kept|
    requires forall x :: x in kept ==> x in front
    requires !SameKey(kept[|kept| - 1], op)
    ensures KeyLt(kept[i], op)
  {
    assert kept[i] in front;
    var m :| 0 <= m < |front| && front[m] == kept[i];
    assert (front + [op])[m] == kept[i] && (front + [op])[|front|] == op;
    assert KeyLe(kept[i], op);
    if SameKey(kept[i], op) && i < |kept| - 1 {
      assert KeyLt(kept[i], kept[|kept| - 1]);
      assert kept[|kept| - 1] in front;
      var n :| 0 <= n < |front| && front[n] == kept[|kept| - 1];
      assert (front + [op])[n] == kept[|kept| - 1];
      assert KeyLe(kept[|kept| - 1], op);
      TextLeAntisymmetric(op.code, kept[|kept| - 1].code);
    }
  }

  // ---------- strictly sorted batches ----------

  lemma StrictlySortedFirsts(s: seq<Op>, o: Op)
    requires StrictlySorted(s)
    ensures o in s <==> IsFirst(s, o)
  {
    if o in s {
      var i :| 0 <= i < |s| && s[i] == o;
      assert Agree(s) by {
        assert forall a, b :: 0 <= a < b < |s| ==> KeyLt(s[a], s[b]);
      }
      FirstOfMember(s, i);
    }
  }

  /** A strictly sorted batch is determined by its members. */
  lemma {:induction false} StrictlySortedUnique(a: seq<Op>, b: seq<Op>)
    requires StrictlySorted(a) && StrictlySorted(b)
    requires forall o :: o in a <==> o in b
    ensures a == b
  {
    assert (a != [] ==> a[0] in a) && (b != [] ==> b[0] in b);
    if a != [] {
      assert a[0] in b;
      assert b != [] && b[0] in a;
      HeadIsLeast(a, b[0]);
      HeadIsLeast(b, a[0]);
      if a[0] != b[0] {
        KeyLeAntisymmetric(a[0], b[0]);
        StrictlySortedFirsts(a, a[0]);
        StrictlySortedFirsts(a, b[0]);
        assert false;
      }
      forall o ensures o in a[1..] <==> o in b[1..] {
        TailMembers(a, o);
        TailMembers(b, o);
      }
      StrictlySortedUnique(a[1..], b[1..]);
      assert a == [a[0]] + a[1..] && b == [b[0]] + b[1..];
    }
  }

  lemma HeadIsLeast(s: seq<Op>, o: Op)
    requires StrictlySorted(s) && o in s
    ensures KeyLe(s[0], o)
  {
    var i :| 0 <= i < |s| && s[i] == o;
    TextLeReflexive(o.code);
    assert i > 0 ==> KeyLt(s[0], s[i]);
  }

  lemma TailMembers(s: seq<Op>, o: Op)
    requires StrictlySorted(s) && s != []
    ensures o in s[1..] <==> o in s && o != s[0]
  {
    if o in s[1..] {
      var i :| 0 <= i < |s[1..]| && s[1..][i] == o;
      assert KeyLt(s[0], s[i + 1]);
    }
  }

  // ---------- the laws of canonicalization ----------

  /** The canonical batch is the strictly sorted listing of the earliest op of
      each (action, code). */
  lemma CanonKeepsFirsts(ops: seq<Op>)
    ensures StrictlySorted(Canon(ops))
    ensures forall k :: SameFirst(Canon(ops), ops, k)
    ensures forall o :: o in Canon(ops) <==> IsFirst(ops, o)
  {
    SortKeeps(ops);
    CollapseKeeps(Sort(ops));
    forall k ensures SameFirst(Canon(ops), ops, k) {
      assert SameFirst(Sort(ops), ops, k);
      assert SameFirst(Collapse(Sort(ops)), Sort(ops), k);
    }
    forall o ensures o in Canon(ops) <==> IsFirst(ops, o) {
      StrictlySortedFirsts(Canon(ops), o);
      assert SameFirst(Canon(ops), ops, o);
    }
  }

  lemma CanonIdempotent(ops: seq<Op>)
    ensures Canon(Canon(ops)) == Canon(ops)
  {
    CanonKeepsFirsts(ops);
    CanonKeepsFirsts(Canon(ops));
    forall o ensures o in Canon(Canon(ops)) <==> o in Canon(ops) {
      StrictlySortedFirsts(Canon(ops), o);
    }
    StrictlySortedUnique(Canon(Canon(ops)), Canon(ops));
  }

  /** Batches with the same members have the same canonical form when no two
      adds of one code carry different priorities. */
  lemma CanonIgnoresOrder(a: seq<Op>, b: seq<Op>)
    requires Agree(a) && Agree(b)
    requires forall o :: o in a <==> o in b
    ensures Canon(a) == Canon(b)
  {
    CanonKeepsFirsts(a);
    CanonKeepsFirsts(b);
    forall o ensures IsFirst(a, o) <==> IsFirst(b, o) {
      AgreeFirst(a, o);
      AgreeFirst(b, o);
    }
    StrictlySortedUnique(Canon(a), Canon(b));
  }

  lemma AgreeFirst(s: seq<Op>, o: Op)
    requires Agree(s)
    ensures IsFirst(s, o) <==> o in s
  {
    if o in s {
      var i :| 0 <= i < |s| && s[i] == o;
      FirstOfMember(s, i);
    }
  }

  /** Exactly when canonicalization is insensitive to the order of the batch:
      the guard is the one a caller can check, `Agree`. */
  lemma OrderInsensitiveExactlyWhenAgree(ops: seq<Op>)
    ensures (forall other: seq<Op> :: multiset(other) == multiset(ops) ==> Canon(other) == Canon(ops))
       <==> Agree(ops)
  {
    if Agree(ops) {
      forall other: seq<Op> | multiset(other) == multiset(ops) ensures Canon(other) == Canon(ops) {
        PermutationAgrees(ops, other);
        CanonIgnoresOrder(other, ops);
      }
    } else {
      var other := DisagreeingOrder(ops);
      assert multiset(other) == multiset(ops) && Canon(other) != Canon(ops);
    }
  }

  lemma PermutationAgrees(a: seq<Op>, b: seq<Op>)
    requires Agree(a) && multiset(a) == multiset(b)
    ensures Agree(b) && forall o :: o in a <==> o in b
  {
    forall o ensures o in a <==> o in b {
      assert o in multiset(a) <==> o in a;
      assert o in multiset(b) <==> o in b;
    }
    forall i, j | 0 <= i < j < |b| && SameKey(b[i], b[j]) ensures b[i] == b[j] {
      assert b[i] in a && b[j] in a;
      var x :| 0 <= x < |a| && a[x] == b[i];
      var y :| 0 <= y < |a| && a[y] == b[j];
      assert x < y || y < x || x == y;
    }
  }

  /** Moving the later of two disagreeing adds to the front changes the result. */
  lemma DisagreeingOrder(ops: seq<Op>) returns (other: seq<Op>)
    requires !Agree(ops)
    ensures multiset(other) == multiset(ops) && Canon(other) != Canon(ops)
  {
    hide FirstOf, HasKey, SameFirst, Canon, IsFirst, StrictlySorted;
    var i, j :| 0 <= i < j < |ops| && SameKey(ops[i], ops[j]) && ops[i] != ops[j];
    var m := if IsFirst(ops, ops[i]) then j else i;
    other := [ops[m]] + (ops[..m] + ops[m + 1..]);
    MovedIsPermuted(ops, m);
    CanonKeepsFirsts(ops);
    CanonKeepsFirsts(other);
    MovedIsFirst(ops[m], ops[..m] + ops[m + 1..]);
    OneFirst(ops, ops[i], ops[j]);
    assert ops[m] in Canon(other) && ops[m] !in Canon(ops);
  }

  lemma MovedIsPermuted(ops: seq<Op>, m: nat)
    requires m < |ops|
    ensures multiset([ops[m]] + (ops[..m] + ops[m + 1..])) == multiset(ops)
  {
    assert ops == ops[..m] + [ops[m]] + ops[m + 1..];
  }

  lemma MovedIsFirst(o: Op, rest: seq<Op>)
    ensures IsFirst([o] + rest, o)
  {
    HasKeyCons(o, rest, o);
  }

  /** Two different ops of one key are not both first. */
  lemma OneFirst(ops: seq<Op>, o: Op, p: Op)
    requires o in ops && p in ops && SameKey(o, p) && o != p
    ensures !IsFirst(ops, o) || !IsFirst(ops, p)
  {
    var i :| 0 <= i < |ops| && ops[i] == o;
    assert SameKey(ops[i], o);
    FirstOfSameKey(ops, o, p);
  }

  lemma {:induction false} FirstOfSameKey(ops: seq<Op>, k: Op, l: Op)
    requires SameKey(k, l) && HasKey(ops, k)
    ensures HasKey(ops, l) && FirstOf(ops, k) == FirstOf(ops, l)
  {
    var i :| 0 <= i < |ops| && SameKey(ops[i], k);
    assert SameKey(ops[i], l);
    if !SameKey(ops[0], k) {
      assert SameKey(ops[1..][i - 1], k);
      FirstOfSameKey(ops[1..], k, l);
    }
  }
}
