/** Sizes of finite sets. */
module Sets {
  lemma {:induction false} Smaller(s: set<nat>, t: set<nat>)
    requires s <= t
    ensures |s| <= |t|
    decreases |s|
  {
    if s != {} {
      var x :| x in s;
      Smaller(s - {x}, t - {x});
    }
  }

  lemma Fewer(s: set<nat>, t: set<nat>, x: nat)
    requires s <= t && x in t && x !in s
    ensures |s| < |t|
  {
    Smaller(s, t - {x});
  }

  lemma UnionSize(s: set<nat>, t: set<nat>)
    ensures |s + t| <= |s| + |t|
  {
    assert s + t == s + (t - s);
    Smaller(t - s, t);
  }

  lemma MissingSize(s: set<nat>, t: set<nat>)
    ensures |s + t| == |s| + |t - s|
  {
    assert s + t == s + (t - s);
  }

  predicate From(lo: nat, i: nat) {
    lo <= i
  }

  ghost function Span(lo: nat, hi: nat): set<nat> {
    set i: nat | i < hi && From(lo, i)
  }

  lemma {:induction false} SpanSize(lo: nat, hi: nat)
    requires lo <= hi
    ensures |Span(lo, hi)| == hi - lo
    decreases hi - lo
  {
    if lo < hi {
      var last := hi - 1;
      SpanSize(lo, last);
      assert Span(lo, hi) == Span(lo, last) + {last};
    } else {
      assert Span(lo, hi) == {};
    }
  }
}
