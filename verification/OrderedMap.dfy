/**
 A JavaScript `Map` keeps its keys in insertion order, and the service bounds every per-cohort table
 with the same idiom: delete then set, so that the key moves to the newest place, then evict from the
 oldest end until the size is back under the cap. This module specifies that idiom on values, proves
 exactly which keys it retains after any history, and gives the one mutable class all tables use.
 */
module OrderedMap {

  datatype Option<+T> = None | Some(value: T)

  // ---- Keys in insertion order ------------------------------------------------------------------

  ghost predicate NoDup<K>(s: seq<K>) {
    forall i, j :: 0 <= i < j < |s| ==> s[i] != s[j]
  }

  ghost function Elems<K>(s: seq<K>): set<K> {
    set x | x in s
  }

  function Without<K(==, !new)>(s: seq<K>, k: K): (r: seq<K>)
    ensures |r| <= |s|
    ensures forall x :: x in r <==> x in s && x != k
  {
    if s == [] then []
    else if s[0] == k then Without(s[1..], k)
    else [s[0]] + Without(s[1..], k)
  }

  /** The keys inserted after `k`: the ones that must be evicted after it. */
  ghost function After<K>(s: seq<K>, k: K): set<K> {
    if s == [] then {}
    else if s[0] == k then Elems(s[1..])
    else After(s[1..], k)
  }

  lemma {:induction false} WithoutNoDup<K(!new)>(s: seq<K>, k: K)
    requires NoDup(s)
    ensures NoDup(Without(s, k))
    ensures |Without(s, k)| == if k in s then |s| - 1 else |s|
  {
    if s != [] {
      WithoutNoDup(s[1..], k);
      assert s[0] !in s[1..];
    }
  }

  lemma {:induction false} AfterWithout<K(!new)>(s: seq<K>, x: K, k: K)
    requires NoDup(s) && x != k
    ensures After(Without(s, x), k) == After(s, k) - {x}
  {
    if s != [] {
      AfterWithout(s[1..], x, k);
      assert Without(s, x) == if s[0] == x then Without(s[1..], x) else [s[0]] + Without(s[1..], x);
      if s[0] == k {
        assert Without(s, x)[1..] == Without(s[1..], x);
      } else if s[0] != x {
        assert Without(s, x)[1..] == Without(s[1..], x);
      }
    }
  }

  lemma {:induction false} AfterAppend<K(!new)>(s: seq<K>, x: K, k: K)
    requires x != k
    ensures After(s + [x], k) == if k in s then After(s, k) + {x} else {}
  {
    if s != [] {
      AfterAppend(s[1..], x, k);
      assert (s + [x])[1..] == s[1..] + [x];
    } else {
      assert (s + [x])[1..] == [];
    }
  }

  lemma {:induction false} AfterLast<K(!new)>(s: seq<K>, k: K)
    requires k !in s
    ensures After(s + [k], k) == {}
  {
    if s != [] {
      AfterLast(s[1..], k);
      assert (s + [k])[1..] == s[1..] + [k];
    }
  }

  lemma {:induction false} ElemsSize<K(!new)>(s: seq<K>)
    requires NoDup(s)
    ensures |Elems(s)| == |s|
  {
    if s != [] {
      ElemsSize(s[1..]);
      assert s[0] !in s[1..];
      assert Elems(s) == Elems(s[1..]) + {s[0]};
    }
  }

  /** Dropping the `n` oldest keys keeps exactly the keys with fewer than `|s| - n` newer ones. */
  lemma {:induction false} DropOldest<K(!new)>(s: seq<K>, n: nat, k: K)
    requires NoDup(s) && n <= |s| && k in s
    ensures k in s[n..] <==> |After(s, k)| < |s| - n
    ensures k in s[n..] ==> After(s[n..], k) == After(s, k)
  {
    if n == 0 {
      assert s[n..] == s;
      AfterSize(s, k);
    } else {
      assert s[n..] == s[1..][n - 1..];
      if s[0] == k {
        ElemsSize(s[1..]);
        assert k !in s[1..];
      } else {
        DropOldest(s[1..], n - 1, k);
      }
    }
  }

  lemma {:induction false} AfterSize<K(!new)>(s: seq<K>, k: K)
    requires NoDup(s) && k in s
    ensures |After(s, k)| < |s|
  {
    if s[0] == k {
      ElemsSize(s[1..]);
    } else {
      AfterSize(s[1..], k);
    }
  }

  /** In a duplicate-free list every element counts once. */
  lemma {:induction false} CountInDistinct<K(!new)>(s: seq<K>, k: K)
    requires NoDup(s)
    ensures multiset(s)[k] == if k in s then 1 else 0
  {
    if s != [] {
      assert s == [s[0]] + s[1..];
      CountInDistinct(s[1..], k);
      assert s[0] !in s[1..];
    }
  }

  lemma SameElementsSameMultiset<K(!new)>(a: seq<K>, b: seq<K>)
    requires NoDup(a) && NoDup(b) && Elems(a) == Elems(b)
    ensures multiset(a) == multiset(b)
  {
    forall k: K ensures multiset(a)[k] == multiset(b)[k] {
      CountInDistinct(a, k);
      CountInDistinct(b, k);
      assert k in a <==> k in Elems(a);
      assert k in b <==> k in Elems(b);
    }
  }

  // ---- The map ----------------------------------------------------------------------------------

  datatype OMap<K(==, !new), V> = OMap(order: seq<K>, table: map<K, V>) {
    ghost predicate Valid() {
      && NoDup(order)
      && (forall k :: k in order <==> k in table)
    }

    function Get(k: K): Option<V> {
      if k in table then Some(table[k]) else None
    }

    function Delete(k: K): OMap<K, V> {
      OMap(Without(order, k), table - {k})
    }

    /** Delete-then-set: the key takes the newest place. */
    function Put(k: K, v: V): OMap<K, V> {
      OMap(Without(order, k) + [k], table[k := v])
    }

    /** Evict from the oldest end until at most `cap` keys are left. */
    function Trim(cap: nat): OMap<K, V>
      decreases |order|
    {
      if |order| <= cap then this else OMap(order[1..], table - {order[0]}).Trim(cap)
    }

    function Remember(k: K, v: V, cap: nat): OMap<K, V> {
      Put(k, v).Trim(cap)
    }

    /** A record changed in place keeps its key where it is. */
    function Mutate(k: K, v: V): OMap<K, V>
      requires k in table
    {
      OMap(order, table[k := v])
    }
  }

  lemma {:induction false} DeleteValid<K(!new), V>(m: OMap<K, V>, k: K)
    requires m.Valid()
    ensures m.Delete(k).Valid()
  {
    WithoutNoDup(m.order, k);
  }

  ghost function Excess<K(!new), V>(m: OMap<K, V>, cap: nat): nat {
    if |m.order| <= cap then 0 else |m.order| - cap
  }

  lemma DropOneValid<K(!new), V>(m: OMap<K, V>)
    requires m.Valid() && m.order != []
    ensures OMap(m.order[1..], m.table - {m.order[0]}).Valid()
  {
    assert m.order == [m.order[0]] + m.order[1..];
  }

  /** Trimming keeps the newest `cap` keys, in order, with their values. */
  lemma {:induction false} TrimShape<K(!new), V>(m: OMap<K, V>, cap: nat)
    requires m.Valid()
    ensures m.Trim(cap).Valid()
    ensures m.Trim(cap).order == m.order[Excess(m, cap)..]
    ensures forall k :: k in m.Trim(cap).table ==> k in m.table && m.Trim(cap).table[k] == m.table[k]
    decreases |m.order|
  {
    if |m.order| > cap {
      var d := OMap(m.order[1..], m.table - {m.order[0]});
      DropOneValid(m);
      TrimShape(d, cap);
      assert d.order[Excess(d, cap)..] == m.order[Excess(m, cap)..];
    }
  }

  lemma {:induction false} RememberValid<K(!new), V>(m: OMap<K, V>, k: K, v: V, cap: nat)
    requires m.Valid() && cap >= 1
    ensures m.Remember(k, v, cap).Valid() && |m.Remember(k, v, cap).order| <= cap
    ensures m.Remember(k, v, cap).Get(k) == Some(v)
    ensures forall x :: x != k && x in m.Remember(k, v, cap).table
              ==> x in m.table && m.Remember(k, v, cap).table[x] == m.table[x]
  {
    WithoutNoDup(m.order, k);
    var p := m.Put(k, v);
    TrimShape(p, cap);
    assert p.order[|p.order| - 1] == k;
    assert p.order[Excess(p, cap)..][|p.order| - 1 - Excess(p, cap)] == k;
  }

  // ---- Histories --------------------------------------------------------------------------------

  datatype Op<K, V> = Touch(key: K, value: V) | Forget(key: K)

  function Apply<K(==, !new), V>(m: OMap<K, V>, op: Op<K, V>, cap: nat): OMap<K, V> {
    match op
    case Touch(k, v) => m.Remember(k, v, cap)
    case Forget(k) => m.Delete(k)
  }

  function Run<K(==, !new), V>(h: seq<Op<K, V>>, cap: nat): OMap<K, V> {
    if h == [] then OMap([], map[])
    else Apply(Run(h[..|h| - 1], cap), h[|h| - 1], cap)
  }

  lemma {:induction false} RunValid<K(!new), V>(h: seq<Op<K, V>>, cap: nat)
    requires cap >= 1
    ensures Run(h, cap).Valid() && |Run(h, cap).order| <= cap
  {
    if h != [] {
      RunValid(h[..|h| - 1], cap);
      var m := Run(h[..|h| - 1], cap);
      match h[|h| - 1]
      case Touch(k, v) => RememberValid(m, k, v, cap);
      case Forget(k) => DeleteValid(m, k);
    }
  }

  /** Index of the last operation on `k`, or -1. */
  ghost function LastOp<K(!new), V>(h: seq<Op<K, V>>, k: K): (i: int)
    ensures -1 <= i < |h|
    ensures i >= 0 ==> h[i].key == k
    ensures forall j :: i < j < |h| ==> h[j].key != k
  {
    if h == [] then -1
    else if h[|h| - 1].key == k then |h| - 1
    else LastOp(h[..|h| - 1], k)
  }

  /** The keys whose last operation in `h` is a touch that comes after position `i`. */
  ghost function Newer<K(!new), V>(h: seq<Op<K, V>>, i: int): set<K>
    requires i >= -1
  {
    set j | i < j < |h| && h[j].Touch? && LastOp(h, h[j].key) == j :: h[j].key
  }

  /**
   What the unbounded history says a bounded map must still hold: the last operation on `k` was a
   touch, and at no moment since then did `cap` other keys lie after it.
   */
  ghost predicate Retained<K(!new), V>(h: seq<Op<K, V>>, k: K, cap: nat) {
    var i := LastOp(h, k);
    && i >= 0
    && h[i].Touch?
    && forall t :: i < t <= |h| ==> |Newer(h[..t], i)| < cap
  }

  /** `Newer` one operation later. */
  lemma {:induction false} NewerStep<K(!new), V>(h: seq<Op<K, V>>, i: int)
    requires -1 <= i < |h| - 1
    ensures Newer(h, i) == match h[|h| - 1]
                           case Touch(x, _) => Newer(h[..|h| - 1], i) + {x}
                           case Forget(x) => Newer(h[..|h| - 1], i) - {x}
  {
    var n := |h| - 1;
    var p := h[..n];
    forall x ensures x != h[n].key ==> LastOp(h, x) == LastOp(p, x) {}
    forall x | x in Newer(h, i) && x != h[n].key
      ensures x in Newer(p, i)
    {
      var j :| i < j < |h| && h[j].Touch? && LastOp(h, h[j].key) == j && h[j].key == x;
      assert p[j] == h[j];
    }
    forall x | x in Newer(p, i) && x != h[n].key
      ensures x in Newer(h, i)
    {
      var j :| i < j < |p| && p[j].Touch? && LastOp(p, p[j].key) == j && p[j].key == x;
      assert p[j] == h[j];
    }
    assert LastOp(h, h[n].key) == n;
  }

  /** While `k` is untouched, being retained after one more operation is being retained and still having room. */
  lemma {:induction false} RetainedStep<K(!new), V>(h: seq<Op<K, V>>, k: K, cap: nat)
    requires h != [] && h[|h| - 1].key != k
    ensures LastOp(h, k) == LastOp(h[..|h| - 1], k)
    ensures Retained(h, k, cap) <==> Retained(h[..|h| - 1], k, cap) && |Newer(h, LastOp(h, k))| < cap
  {
    var n := |h| - 1;
    var p := h[..n];
    var i := LastOp(p, k);
    assert h[..|h|] == h;
    forall t | 0 <= t <= n ensures h[..t] == p[..t] {}
    if Retained(p, k, cap) && |Newer(h, i)| < cap {
      forall t | i < t <= |h| ensures |Newer(h[..t], i)| < cap {
        if t <= n { assert h[..t] == p[..t]; }
      }
    }
    if Retained(h, k, cap) {
      forall t | i < t <= n ensures |Newer(p[..t], i)| < cap {
        assert h[..t] == p[..t];
      }
      assert |Newer(h[..|h|], i)| < cap;
    }
  }

  /** What one operation on another key does to a key the map may hold. */
  lemma {:induction false} LookupStepOther<K(!new), V>(h: seq<Op<K, V>>, k: K, cap: nat)
    requires cap >= 1 && h != [] && h[|h| - 1].key != k
    requires LookupAgrees(h[..|h| - 1], k, cap)
    ensures LookupAgrees(h, k, cap)
  {
    var n := |h| - 1;
    var p, op := h[..n], h[n];
    var m := Run(p, cap);
    RunValid(p, cap);
    RetainedStep(h, k, cap);
    var i := LastOp(p, k);
    if i >= 0 { NewerStep(h, i); }
    match op {
      case Touch(x, v) => TouchOther(m, x, v, k, cap);
      case Forget(x) =>
        AfterWithout(m.order, x, k);
        if Retained(p, k, cap) {
          AfterSize(m.order, k);
          SubsetSize(Newer(h, i), Newer(p, i));
        }
    }
  }

  lemma {:induction false} LookupStepSame<K(!new), V>(h: seq<Op<K, V>>, k: K, cap: nat)
    requires cap >= 1 && h != [] && h[|h| - 1].key == k
    ensures LookupAgrees(h, k, cap)
  {
    var n := |h| - 1;
    var m := Run(h[..n], cap);
    RunValid(h[..n], cap);
    if h[n].Touch? {
      TouchSame(m, k, h[n].value, cap);
      RememberValid(m, k, h[n].value, cap);
      assert Newer(h, n) == {};
      forall t | n < t <= |h| ensures |Newer(h[..t], n)| < cap { assert h[..t] == h; }
    }
  }

  ghost predicate LookupAgrees<K(!new), V>(h: seq<Op<K, V>>, k: K, cap: nat) {
    && Run(h, cap).Get(k) == (if Retained(h, k, cap) then Some(h[LastOp(h, k)].value) else None)
    && (Retained(h, k, cap) ==> After(Run(h, cap).order, k) == Newer(h, LastOp(h, k)))
  }

  /**
   The bounded map is the unbounded history, cut exactly: a lookup finds the last value touched for
   `k` when the history retains `k`, and nothing otherwise.
   */
  lemma {:induction false} RunLookup<K(!new), V>(h: seq<Op<K, V>>, k: K, cap: nat)
    requires cap >= 1
    ensures Run(h, cap).Get(k) == if Retained(h, k, cap) then Some(h[LastOp(h, k)].value) else None
    ensures Retained(h, k, cap) ==> After(Run(h, cap).order, k) == Newer(h, LastOp(h, k))
  {
    if h != [] {
      if h[|h| - 1].key == k {
        LookupStepSame(h, k, cap);
      } else {
        RunLookup(h[..|h| - 1], k, cap);
        LookupStepOther(h, k, cap);
      }
    }
  }

  lemma {:induction false} TouchOther<K(!new), V>(m: OMap<K, V>, x: K, v: V, k: K, cap: nat)
    requires m.Valid() && x != k && cap >= 1 && |m.order| <= cap
    ensures m.Remember(x, v, cap).Get(k)
            == if k in m.table && |After(m.order, k) + {x}| < cap then m.Get(k) else None
    ensures k in m.Remember(x, v, cap).table ==> After(m.Remember(x, v, cap).order, k) == After(m.order, k) + {x}
  {
    var p := m.Put(x, v);
    RememberValid(m, x, v, cap);
    if k in m.table {
      PutAfter(m, x, v, k);
      TrimShape(p, cap);
      DropOldest(p.order, Excess(p, cap), k);
      AfterSize(p.order, k);
    }
  }

  lemma {:induction false} PutAfter<K(!new), V>(m: OMap<K, V>, x: K, v: V, k: K)
    requires m.Valid() && x != k && k in m.table
    ensures m.Put(x, v).Valid()
    ensures After(m.Put(x, v).order, k) == After(m.order, k) + {x}
  {
    WithoutNoDup(m.order, x);
    AfterWithout(m.order, x, k);
    AfterAppend(Without(m.order, x), x, k);
  }

  lemma {:induction false} TouchSame<K(!new), V>(m: OMap<K, V>, k: K, v: V, cap: nat)
    requires m.Valid() && cap >= 1
    ensures After(m.Remember(k, v, cap).order, k) == {}
  {
    var p := m.Put(k, v);
    WithoutNoDup(m.order, k);
    AfterLast(Without(m.order, k), k);
    TrimShape(p, cap);
    RememberValid(m, k, v, cap);
    DropOldest(p.order, Excess(p, cap), k);
  }

  /** The keys touched after position `i`, `k` itself excluded. */
  ghost function TouchedAfter<K(!new), V>(h: seq<Op<K, V>>, i: int, k: K): set<K>
    requires i >= -1
  {
    set j | i < j < |h| && h[j].Touch? && h[j].key != k :: h[j].key
  }

  lemma {:induction false} SubsetSize<T>(a: set<T>, b: set<T>)
    requires a <= b
    ensures |a| <= |b|
  {
    if a != {} {
      var x :| x in a;
      SubsetSize(a - {x}, b - {x});
    }
  }

  /** Whatever is deleted in between, a touched key survives until `cap` distinct other keys are touched after it. */
  lemma {:induction false} SurvivesUntilCapOthers<K(!new), V>(h: seq<Op<K, V>>, k: K, cap: nat)
    requires cap >= 1
    requires LastOp(h, k) >= 0 && h[LastOp(h, k)].Touch?
    requires |TouchedAfter(h, LastOp(h, k), k)| < cap
    ensures Run(h, cap).Get(k) == Some(h[LastOp(h, k)].value)
  {
    var i := LastOp(h, k);
    forall t | i < t <= |h| ensures |Newer(h[..t], i)| < cap {
      var p := h[..t];
      forall x | x in Newer(p, i) ensures x in TouchedAfter(h, i, k) {
        var j :| i < j < |p| && p[j].Touch? && LastOp(p, p[j].key) == j && p[j].key == x;
        assert h[j] == p[j] && h[j].key != k;
      }
      SubsetSize(Newer(p, i), TouchedAfter(h, i, k));
    }
    RunLookup(h, k, cap);
  }

  /** With no deletions the bounded map holds exactly the `cap` most recently touched keys. */
  lemma {:induction false} RunHoldsMostRecent<K(!new), V>(h: seq<Op<K, V>>, k: K, cap: nat)
    requires cap >= 1
    requires forall j :: 0 <= j < |h| ==> h[j].Touch?
    ensures Run(h, cap).Get(k)
            == if LastOp(h, k) >= 0 && |TouchedAfter(h, LastOp(h, k), k)| < cap
               then Some(h[LastOp(h, k)].value) else None
  {
    var i := LastOp(h, k);
    RunLookup(h, k, cap);
    if i >= 0 {
      if |TouchedAfter(h, i, k)| < cap {
        SurvivesUntilCapOthers(h, k, cap);
      } else {
        assert h[..|h|] == h;
        forall x | x in TouchedAfter(h, i, k) ensures x in Newer(h, i) {
          var j0 :| i < j0 < |h| && h[j0].Touch? && h[j0].key != k && h[j0].key == x;
          var j := LastOp(h, x);
          assert j >= j0 && h[j].Touch?;
        }
        SubsetSize(TouchedAfter(h, i, k), Newer(h, i));
        assert |Newer(h[..|h|], i)| >= cap;
      }
    }
  }

  /** One operation on another key, seen from a key whose newer keys all lie in a set too small to evict it. */
  lemma SurvivesOneOp<K(!new), V>(m: OMap<K, V>, op: Op<K, V>, k: K, others: set<K>, cap: nat)
    requires m.Valid() && |m.order| <= cap && cap >= 1
    requires k in m.table && op.key != k
    requires After(m.order, k) <= others && |others| < cap
    requires op.Touch? ==> op.key in others
    ensures Apply(m, op, cap).Get(k) == m.Get(k)
    ensures After(Apply(m, op, cap).order, k) <= others
  {
    match op
    case Touch(x, v) =>
      SubsetSize(After(m.order, k) + {x}, others);
      TouchOther(m, x, v, k, cap);
    case Forget(x) => AfterWithout(m.order, x, k);
  }

  // ---- The mutable table ------------------------------------------------------------------------

  /** A `Map` bounded by `cap`, changed in place. */
  class BoundedMap<K(==, !new), V> {
    const cap: nat
    var order: seq<K>
    var table: map<K, V>

    ghost predicate Valid()
      reads this
    {
      cap >= 1 && Model().Valid() && |order| <= cap
    }

    function Model(): OMap<K, V>
      reads this
    {
      OMap(order, table)
    }

    constructor (cap: nat)
      requires cap >= 1
      ensures Valid() && this.cap == cap && Model() == OMap([], map[])
    {
      this.cap, order, table := cap, [], map[];
    }

    /** Delete-then-set, then evict the oldest keys past the cap; the evicted entries come back oldest first. */
    method Remember(k: K, v: V) returns (evicted: seq<(K, V)>)
      requires Valid()
      modifies this
      ensures Valid() && Model() == old(Model()).Remember(k, v, cap)
      ensures |evicted| <= 1
      ensures evicted == [] <==> k in old(table) || |old(order)| < cap
      ensures evicted != [] ==> evicted == [(old(order)[0], old(table)[old(order)[0]])]
    {
      ghost var before := Model();
      PutShape(before, k, v);
      RememberValid(before, k, v, cap);
      DeleteThenSet(k, v);
      evicted := EvictPastCap();
    }

    method DeleteThenSet(k: K, v: V)
      modifies this
      ensures Model() == old(Model()).Put(k, v)
    {
      order, table := Without(order, k), table - {k};
      order, table := order + [k], table[k := v];
      assert table == old(table)[k := v];
    }

    /** Evicts from the oldest end until the size is within the cap; the evicted entries, oldest first. */
    method EvictPastCap() returns (evicted: seq<(K, V)>)
      requires Model().Valid()
      modifies this
      ensures Model() == old(Model()).Trim(cap)
      ensures |evicted| == Excess(old(Model()), cap) && OldestOf(old(Model()), evicted)
    {
      ghost var first := Model();
      evicted := [];
      while |order| > cap
        invariant Evicting(first, Model(), |evicted|, cap) && OldestOf(first, evicted)
        decreases |order|
      {
        EvictOne(first, Model(), |evicted|, cap);
        var oldest := order[0];
        OldestOfGrows(first, evicted, oldest);
        evicted := evicted + [(oldest, table[oldest])];
        order, table := order[1..], table - {oldest};
      }
      EvictDone(first, Model(), |evicted|, cap);
    }

    method Mutate(k: K, v: V)
      requires Valid() && k in table
      modifies this`table
      ensures Valid() && Model() == old(Model()).Mutate(k, v)
    {
      table := table[k := v];
    }

    method Delete(k: K)
      requires Valid()
      modifies this
      ensures Valid() && Model() == old(Model()).Delete(k)
    {
      DeleteValid(Model(), k);
      order, table := Without(order, k), table - {k};
    }
  }

  /** An eviction under way: `n` entries are out, the rest is in place. */
  ghost predicate Evicting<K(!new), V>(first: OMap<K, V>, now: OMap<K, V>, n: nat, cap: nat) {
    && now.Valid() && now.Trim(cap) == first.Trim(cap)
    && n <= Excess(first, cap) && now.order == first.order[n..]
    && forall k :: k in now.table ==> k in first.table && now.table[k] == first.table[k]
  }

  /** The entries that are out are the oldest, in order. */
  ghost predicate OldestOf<K(!new), V>(first: OMap<K, V>, evicted: seq<(K, V)>) {
    forall i :: 0 <= i < |evicted| ==>
      i < |first.order| && first.order[i] in first.table &&
      evicted[i] == (first.order[i], first.table[first.order[i]])
  }

  lemma OldestOfGrows<K(!new), V>(first: OMap<K, V>, evicted: seq<(K, V)>, k: K)
    requires OldestOf(first, evicted) && |evicted| < |first.order|
    requires first.order[|evicted|] == k && k in first.table
    ensures OldestOf(first, evicted + [(k, first.table[k])])
  {
  }

  lemma EvictOne<K(!new), V>(first: OMap<K, V>, now: OMap<K, V>, n: nat, cap: nat)
    requires Evicting(first, now, n, cap) && |now.order| > cap
    ensures now.order[0] in now.table && now.order[0] == first.order[n]
    ensures now.order[0] in first.table && now.table[now.order[0]] == first.table[now.order[0]]
    ensures Evicting(first, OMap(now.order[1..], now.table - {now.order[0]}), n + 1, cap)
  {
    var next := OMap(now.order[1..], now.table - {now.order[0]});
    assert now.order[0] in now.order;
    DropOneValid(now);
    assert next.Trim(cap) == now.Trim(cap);
    OneFurther(first.order, n);
  }

  lemma OneFurther<K>(s: seq<K>, n: nat)
    requires n < |s|
    ensures s[n..][0] == s[n] && s[n..][1..] == s[n + 1..]
  {
  }

  lemma EvictDone<K(!new), V>(first: OMap<K, V>, now: OMap<K, V>, n: nat, cap: nat)
    requires Evicting(first, now, n, cap) && |now.order| <= cap
    ensures now == first.Trim(cap) && n == Excess(first, cap)
  {
  }

  lemma {:induction false} PutShape<K(!new), V>(m: OMap<K, V>, k: K, v: V)
    requires m.Valid()
    ensures m.Put(k, v).Valid()
    ensures |m.Put(k, v).order| == if k in m.table then |m.order| else |m.order| + 1
    ensures k !in m.table ==> m.Put(k, v).order == m.order + [k]
    ensures k !in m.table && m.order != [] ==> m.order[0] != k && m.Put(k, v).table[m.order[0]] == m.table[m.order[0]]
  {
    WithoutNoDup(m.order, k);
    if k !in m.table { WithoutAbsent(m.order, k); }
  }

  lemma {:induction false} WithoutAbsent<K(!new)>(s: seq<K>, k: K)
    requires k !in s
    ensures Without(s, k) == s
  {
    if s != [] { WithoutAbsent(s[1..], k); }
  }
}
