/**
 Two sequences of what can be seen, compared place by place.
 */
module Traces {

  /** The traces differ at a place both have. */
  ghost predicate Diverge<T>(t: seq<T>, u: seq<T>) { exists p :: 0 <= p < |t| && p < |u| && t[p] != u[p] }

  /** They go on differing whatever follows, and differ whatever came before. */
  lemma DivergeMore<T>(a: seq<T>, t: seq<T>, t': seq<T>, u: seq<T>, u': seq<T>)
    requires Diverge(t, u)
    ensures Diverge(t + t', u + u') && Diverge(a + t, a + u) && t != u
  {
    var p :| 0 <= p < |t| && p < |u| && t[p] != u[p];
    assert (t + t')[p] == t[p] && (u + u')[p] == u[p];
    assert (a + t)[|a| + p] == t[p] && (a + u)[|a| + p] == u[p];
  }

  lemma DivergeFirst<T>(e: T, t: seq<T>, f: T, u: seq<T>)
    requires e != f
    ensures Diverge([e] + t, [f] + u) && Diverge([e], [f])
    ensures Diverge([e] + t, [f]) && Diverge([e], [f] + u)
  {
    assert ([e] + t)[0] == e && ([f] + u)[0] == f && [e][0] == e && [f][0] == f;
  }

  /** The same if ok, otherwise different at a place both have. */
  ghost predicate Followed<T>(ok: bool, t: seq<T>, u: seq<T>) { if ok then t == u else Diverge(t, u) }

  lemma FollowedBoth<T>(ok: bool, t: seq<T>, u: seq<T>, ok': bool, t': seq<T>, u': seq<T>)
    requires Followed(ok, t, u) && (ok ==> Followed(ok', t', u'))
    ensures Followed(ok && ok', t + t', u + u')
  {
    if !ok {
      DivergeMore([], t, t', u, u');
    } else if !ok' {
      DivergeMore(t, t', [], u', []);
    }
  }

  lemma FollowedOne<T>(e: T, f: T)
    ensures Followed(e == f, [e], [f])
  {
    if e != f {
      DivergeFirst(e, [], f, []);
    }
  }

  lemma FollowedExactly<T>(ok: bool, t: seq<T>, u: seq<T>)
    requires Followed(ok, t, u)
    ensures t == u <==> ok
  {
    if !ok {
      DivergeMore([], t, [], u, []);
    }
  }
}
