// A URLSearchParams value: an ordered list of name-value pairs, with the
// get / set / delete operations of the WHATWG URL standard (section 6.2).
module SearchParams {
  import opened Wrappers

  datatype Param = Param(key: string, value: string)

  predicate HasKey(ps: seq<Param>, k: string)
  {
    exists i :: 0 <= i < |ps| && ps[i].key == k
  }

  /** get(name): the value of the first pair with that name. */
  function Get(ps: seq<Param>, k: string): Option<string>
  {
    if ps == [] then None
    else if ps[0].key == k then Some(ps[0].value)
    else Get(ps[1..], k)
  }

  /** get finds the first pair with the name, and nothing when there is none. */
  lemma {:induction false} GetIsFirst(ps: seq<Param>, k: string)
    ensures Get(ps, k).None? <==> !HasKey(ps, k)
    ensures Get(ps, k).Some? ==>
      exists i :: 0 <= i < |ps| && ps[i] == Param(k, Get(ps, k).value) &&
                  (forall j :: 0 <= j < i ==> ps[j].key != k)
  {
    if ps != [] && ps[0].key != k {
      GetIsFirst(ps[1..], k);
      if Get(ps, k).Some? {
        var i :| 0 <= i < |ps[1..]| && ps[1..][i] == Param(k, Get(ps, k).value) &&
          forall j :: 0 <= j < i ==> ps[1..][j].key != k;
        assert ps[i + 1] == ps[1..][i];
        forall j | 0 <= j < i + 1 ensures ps[j].key != k {
          if j > 0 {
            assert ps[j] == ps[1..][j - 1];
          }
        }
      }
      if HasKey(ps, k) {
        var i :| 0 <= i < |ps| && ps[i].key == k;
        assert ps[1..][i - 1] == ps[i];
      }
    } else if ps != [] {
      assert ps[0] == Param(k, Get(ps, k).value);
    }
  }

  /** get on two lists joined: the first list's value when it has the name. */
  lemma {:induction false} GetConcat(a: seq<Param>, b: seq<Param>, k: string)
    ensures Get(a + b, k) == if HasKey(a, k) then Get(a, k) else Get(b, k)
  {
    if a == [] {
      assert a + b == b;
    } else {
      assert (a + b)[0] == a[0];
      assert (a + b)[1..] == a[1..] + b;
      GetConcat(a[1..], b, k);
      if a[0].key != k {
        if HasKey(a, k) {
          var i :| 0 <= i < |a| && a[i].key == k;
          assert a[1..][i - 1] == a[i];
        }
        if HasKey(a[1..], k) {
          var i :| 0 <= i < |a[1..]| && a[1..][i].key == k;
          assert a[i + 1] == a[1..][i];
        }
      }
    }
  }

  /** delete(name): every pair with that name goes. */
  function Delete(ps: seq<Param>, k: string): (r: seq<Param>)
    ensures |r| <= |ps|
  {
    if ps == [] then []
    else (if ps[0].key == k then [] else [ps[0]]) + Delete(ps[1..], k)
  }

  /** set(name, value): the first pair with that name takes the value and the
      others go; without such a pair the pair is appended. */
  function Set(ps: seq<Param>, k: string, v: string): (r: seq<Param>)
    ensures |r| <= |ps| + 1
  {
    if ps == [] then [Param(k, v)]
    else if ps[0].key == k then [Param(k, v)] + Delete(ps[1..], k)
    else [ps[0]] + Set(ps[1..], k, v)
  }

  /** `if (cond) params.set(k, v)`. */
  function SetIf(ps: seq<Param>, cond: bool, k: string, v: string): seq<Param>
  {
    if cond then Set(ps, k, v) else ps
  }

  lemma GetSetIf(ps: seq<Param>, cond: bool, k: string, v: string, j: string)
    ensures Get(SetIf(ps, cond, k, v), j) == if cond && j == k then Some(v) else Get(ps, j)
  {
    if cond {
      GetSet(ps, k, v, j);
    }
  }

  lemma {:induction false} GetDeleted(ps: seq<Param>, k: string, j: string)
    ensures Get(Delete(ps, k), j) == if j == k then None else Get(ps, j)
  {
    if ps != [] {
      var rest := Delete(ps[1..], k);
      GetDeleted(ps[1..], k, j);
      if ps[0].key == k {
        assert Delete(ps, k) == rest;
      } else {
        var d := Delete(ps, k);
        assert d == [ps[0]] + rest;
        assert d[0] == ps[0] && d[1..] == rest;
      }
    }
  }

  lemma {:induction false} GetSet(ps: seq<Param>, k: string, v: string, j: string)
    ensures Get(Set(ps, k, v), j) == if j == k then Some(v) else Get(ps, j)
  {
    if ps != [] && ps[0].key != k {
      GetSet(ps[1..], k, v, j);
    } else if ps != [] {
      GetDeleted(ps[1..], k, j);
    }
  }

  /** After set(name, value) exactly one pair carries the name. */
  lemma {:induction false} SetLeavesOnePair(ps: seq<Param>, k: string, v: string)
    ensures Count(Set(ps, k, v), k) == 1
  {
    if ps == [] {
    } else if ps[0].key == k {
      assert Set(ps, k, v) == [Param(k, v)] + Delete(ps[1..], k);
      CountAppend([Param(k, v)], Delete(ps[1..], k), k);
      CountDeleted(ps[1..], k);
      assert Count([Param(k, v)], k) == 1 by {
        assert [Param(k, v)][1..] == [];
      }
    } else {
      SetLeavesOnePair(ps[1..], k, v);
      assert Set(ps, k, v) == [ps[0]] + Set(ps[1..], k, v);
      CountAppend([ps[0]], Set(ps[1..], k, v), k);
      assert Count([ps[0]], k) == 0 by {
        assert [ps[0]][1..] == [];
      }
    }
  }

  /** Number of pairs with the given name. */
  function Count(ps: seq<Param>, k: string): nat
  {
    if ps == [] then 0 else (if ps[0].key == k then 1 else 0) + Count(ps[1..], k)
  }

  lemma {:induction false} CountAppend(a: seq<Param>, b: seq<Param>, k: string)
    ensures Count(a + b, k) == Count(a, k) + Count(b, k)
  {
    if a != [] {
      assert (a + b)[1..] == a[1..] + b;
      CountAppend(a[1..], b, k);
    } else {
      assert a + b == b;
    }
  }

  lemma {:induction false} CountDeleted(ps: seq<Param>, k: string)
    ensures Count(Delete(ps, k), k) == 0
  {
    if ps != [] {
      CountDeleted(ps[1..], k);
      var h := if ps[0].key == k then [] else [ps[0]];
      CountAppend(h, Delete(ps[1..], k), k);
      if h != [] {
        assert h[1..] == [];
      }
    }
  }
}
