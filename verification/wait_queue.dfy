/** The waiting queue: the scan that takes partners from its front, and its two filters. */
module WaitQueue {
  import opened Signaling

  /** The entries of `q` that are still connected, in queue order. */
  function Live(q: seq<Id>, live: set<Id>): (r: seq<Id>)
    ensures |r| <= |q|
    decreases |q|
  {
    if q == [] then [] else (if q[0] in live then [q[0]] else []) + Live(q[1..], live)
  }

  /** The filter keeps exactly the connected entries. */
  lemma {:induction false} LiveMembers(q: seq<Id>, live: set<Id>, x: Id)
    ensures x in Live(q, live) <==> x in q && x in live
    decreases |q|
  {
    if q != [] {
      LiveMembers(q[1..], live, x);
      assert q == [q[0]] + q[1..];
    }
  }

  lemma {:induction false} LiveAppend(a: seq<Id>, b: seq<Id>, live: set<Id>)
    ensures Live(a + b, live) == Live(a, live) + Live(b, live)
    decreases |a|
  {
    if a == [] {
      assert a + b == b;
    } else {
      var ab := a + b;
      assert ab[0] == a[0] && ab[1..] == a[1..] + b;
      LiveAppend(a[1..], b, live);
      var h := if a[0] in live then [a[0]] else [];
      assert Live(ab, live) == h + (Live(a[1..], live) + Live(b, live));
      assert Live(a, live) == h + Live(a[1..], live);
    }
  }

  /** The first connected entry of the queue heads the filtered queue. */
  lemma {:induction false} LiveHead(q: seq<Id>, live: set<Id>, i: nat)
    requires i < |q| && q[i] in live
    requires forall k :: 0 <= k < i ==> q[k] !in live
    ensures Live(q, live) != [] && Live(q, live)[0] == q[i]
  {
    if i > 0 {
      LiveHead(q[1..], live, i - 1);
    }
  }

  lemma {:induction false} LiveOfLive(q: seq<Id>, live: set<Id>)
    ensures Live(Live(q, live), live) == Live(q, live)
    decreases |q|
  {
    if q != [] {
      LiveOfLive(q[1..], live);
      var rest := Live(q[1..], live);
      if q[0] in live {
        var x := [q[0]] + rest;
        assert x[0] == q[0] && x[1..] == rest;
        assert Live(x, live) == [q[0]] + Live(rest, live);
        assert Live(q, live) == x;
      } else {
        assert Live(q, live) == [] + rest == rest;
      }
    }
  }

  predicate NoDup(q: seq<Id>) {
    forall i, j :: 0 <= i < j < |q| ==> q[i] != q[j]
  }

  lemma {:induction false} LiveNoDup(q: seq<Id>, live: set<Id>)
    requires NoDup(q)
    ensures NoDup(Live(q, live))
    decreases |q|
  {
    if q != [] {
      assert NoDup(q[1..]) by {
        forall i, j | 0 <= i < j < |q[1..]| ensures q[1..][i] != q[1..][j] {
          assert q[1..][i] == q[i + 1] && q[1..][j] == q[j + 1];
        }
      }
      LiveNoDup(q[1..], live);
      var rest := Live(q[1..], live);
      if q[0] in live {
        assert q[0] !in q[1..];
        LiveMembers(q[1..], live, q[0]);
        var r := [q[0]] + rest;
        forall i, j | 0 <= i < j < |r| ensures r[i] != r[j] {
          if i == 0 {
            assert r[j] == rest[j - 1];
          } else {
            assert r[i] == rest[i - 1] && r[j] == rest[j - 1];
          }
        }
      }
    }
  }

  /** `queue.filter(user => user.id !== s)`. */
  function Without(q: seq<Id>, s: Id): (r: seq<Id>)
    ensures |r| <= |q|
    decreases |q|
  {
    if q == [] then [] else (if q[0] != s then [q[0]] else []) + Without(q[1..], s)
  }

  /** The filter removes every entry of `s` and keeps every other entry. */
  lemma {:induction false} WithoutMembers(q: seq<Id>, s: Id, x: Id)
    ensures x in Without(q, s) <==> x in q && x != s
    decreases |q|
  {
    if q != [] {
      WithoutMembers(q[1..], s, x);
      assert q == [q[0]] + q[1..];
    }
  }

  /** Every other entry keeps its number of occurrences; `s` has none left. */
  lemma {:induction false} WithoutCount(q: seq<Id>, s: Id, x: Id)
    ensures multiset(Without(q, s))[x] == if x == s then 0 else multiset(q)[x]
    decreases |q|
  {
    if q != [] {
      WithoutCount(q[1..], s, x);
      assert q == [q[0]] + q[1..];
      var h := if q[0] != s then [q[0]] else [];
      assert multiset(Without(q, s)) == multiset(h) + multiset(Without(q[1..], s));
    }
  }

  /** A queue that does not hold `s` is left as it is. */
  lemma {:induction false} WithoutAbsent(q: seq<Id>, s: Id)
    requires s !in q
    ensures Without(q, s) == q
    decreases |q|
  {
    if q != [] {
      WithoutAbsent(q[1..], s);
      assert q == [q[0]] + q[1..];
    }
  }

  /** Filtering a queue without repeats gives a queue without repeats. */
  lemma {:induction false} WithoutNoDup(q: seq<Id>, s: Id)
    requires NoDup(q)
    ensures NoDup(Without(q, s))
    decreases |q|
  {
    if q != [] {
      var t := q[1..];
      assert NoDup(t) by {
        forall i, j | 0 <= i < j < |t| ensures t[i] != t[j] {
          assert t[i] == q[i + 1] && t[j] == q[j + 1];
        }
      }
      WithoutNoDup(t, s);
      if q[0] != s {
        assert q[0] !in t;
        WithoutMembers(t, s, q[0]);
        var w := Without(t, s);
        var r := [q[0]] + w;
        forall i, j | 0 <= i < j < |r| ensures r[i] != r[j] {
          assert r[j] == w[j - 1];
          if i > 0 {
            assert r[i] == w[i - 1];
          }
        }
      }
    }
  }

  /** The filter keeps order: filtering a concatenation filters each part in place. */
  lemma {:induction false} WithoutAppend(a: seq<Id>, b: seq<Id>, s: Id)
    ensures Without(a + b, s) == Without(a, s) + Without(b, s)
    decreases |a|
  {
    if a == [] {
      assert a + b == b;
    } else {
      var ab := a + b;
      assert ab[0] == a[0] && ab[1..] == a[1..] + b;
      WithoutAppend(a[1..], b, s);
      var h := if a[0] != s then [a[0]] else [];
      assert Without(ab, s) == h + (Without(a[1..], s) + Without(b, s));
      assert Without(a, s) == h + Without(a[1..], s);
    }
  }

  /**
   * What the scan loop leaves, starting from `users` held: `r.0` are the
   * users held and `r.1` the queue left, a suffix of `q`. The users held are
   * `users` followed by the connected entries of the prefix shifted off; at
   * most two are held; fewer than two only once the queue is empty; and a
   * scan that stops early stops right after shifting a connected entry.
   */
  predicate ScanResult(q: seq<Id>, live: set<Id>, users: seq<Id>, r: (seq<Id>, seq<Id>)) {
    && |r.0| <= 2 && |r.1| <= |q|
    && r.1 == q[|q| - |r.1|..]
    && r.0 == users + Live(q[..|q| - |r.1|], live)
    && (|r.0| < 2 ==> r.1 == [])
    && (|r.1| < |q| && |r.0| == 2 ==> q[|q| - |r.1| - 1] in live)
  }

  /**
   * The scan loop of `handleConnection`: shift entries off the front of `q`,
   * keep the connected ones in `users`, stop when two are held or the queue
   * is empty. Returns the users held and the queue that is left.
   */
  function Scan(q: seq<Id>, live: set<Id>, users: seq<Id>): (r: (seq<Id>, seq<Id>))
    requires |users| <= 2
    ensures ScanResult(q, live, users, r)
    decreases |q|
  {
    if q == [] || |users| == 2 then
      assert q[..0] == [] && Live([], live) == [] && users + [] == users;
      (users, q)
    else
      var r := Scan(q[1..], live, if q[0] in live then users + [q[0]] else users);
      ScanStep(q, live, users, r);
      r
  }

  /** One shift of the scan loop: what holds of the rest of the queue holds of the whole. */
  lemma ScanStep(q: seq<Id>, live: set<Id>, users: seq<Id>, r: (seq<Id>, seq<Id>))
    requires q != [] && |users| < 2
    requires ScanResult(q[1..], live, if q[0] in live then users + [q[0]] else users, r)
    ensures ScanResult(q, live, users, r)
  {
    var k := |q| - |r.1|;
    var p := q[..k];
    assert p[0] == q[0] && p[1..] == q[1..][..k - 1];
    assert Live(p, live) == (if q[0] in live then [q[0]] else []) + Live(q[1..][..k - 1], live);
    assert q[1..][k - 1..] == q[k..];
    if k == 1 {
      assert q[1..][..0] == [];
    } else {
      assert q[1..][|q[1..]| - |r.1| - 1] == q[k - 1];
    }
  }

  /**
   * When two connected entries exist, the scan stops right after shifting
   * the second: the shifted prefix holds exactly the pair, ending in it.
   */
  lemma ScanPairShape(q: seq<Id>, live: set<Id>)
    requires |Live(q, live)| >= 2
    ensures var r := Scan(q, live, []);
      var k := |q| - |r.1|;
      && r.0 == Live(q, live)[..2]
      && 0 < k <= |q| && r.1 == q[k..]
      && Live(q[..k], live) == r.0 && q[k - 1] == r.0[1]
  {
    ScanTakesFirstTwoLive(q, live);
    var r := Scan(q, live, []);
    var k := |q| - |r.1|;
    var p := q[..k];
    assert r.0 == [] + Live(p, live) == Live(p, live);
    assert |r.0| == 2 && k >= 2;
    assert q[k - 1] in live && p[k - 1] == q[k - 1];
    LiveSnoc(p, live);
    assert Live(p, live)[1] == q[k - 1];
  }

  lemma LiveSnoc(s: seq<Id>, live: set<Id>)
    requires s != [] && s[|s| - 1] in live
    ensures Live(s, live) == Live(s[..|s| - 1], live) + [s[|s| - 1]]
  {
    var x := s[|s| - 1];
    assert s == s[..|s| - 1] + [x];
    LiveAppend(s[..|s| - 1], [x], live);
    assert [x][1..] == [];
  }

  /** A connected entry the scan shifted off is among the users it holds. */
  lemma ScanKeepsLive(q: seq<Id>, live: set<Id>, x: Id)
    requires x in q && x in live
    ensures var r := Scan(q, live, []); x in r.0 || x in r.1
  {
    var r := Scan(q, live, []);
    var k := |q| - |r.1|;
    assert q == q[..k] + q[k..];
    LiveMembers(q[..k], live, x);
  }

  /** A connected entry is either among those shifted off the front or still in what is left. */
  lemma ShiftedOrLeft(q: seq<Id>, live: set<Id>, k: nat, x: Id)
    requires k <= |q| && x in q && x in live
    ensures x in q[k..] || x in Live(q[..k], live)
  {
    assert q == q[..k] + q[k..];
    LiveMembers(q[..k], live, x);
  }

  /** The connected entries of the queue are the users the scan holds, then those of what it left. */
  lemma ScanSplit(q: seq<Id>, live: set<Id>)
    ensures var r := Scan(q, live, []); Live(q, live) == r.0 + Live(r.1, live)
  {
    var r := Scan(q, live, []);
    var head := q[..|q| - |r.1|];
    assert r.0 == [] + Live(head, live) == Live(head, live);
    assert q == head + r.1;
    LiveAppend(head, r.1, live);
  }

  /** The pair the scan forms is the first two connected entries, in queue order. */
  lemma ScanTakesFirstTwoLive(q: seq<Id>, live: set<Id>)
    ensures |Live(q, live)| >= 2 ==> Scan(q, live, []).0 == Live(q, live)[..2]
    ensures |Live(q, live)| < 2 ==> Scan(q, live, []) == (Live(q, live), [])
  {
    var r := Scan(q, live, []);
    ScanSplit(q, live);
    if |r.0| < 2 {
      assert Live(r.1, live) == [];
      assert Live(q, live) == r.0 + [] == r.0;
    } else {
      assert (r.0 + Live(r.1, live))[..2] == r.0;
    }
  }
}
