/** Heading ids that are unique within one rendering (src/html.rs). */
module HeadingIds {
  import opened Bytes
  import Unescape

  /** How often each id was asked for again, by id. */
  type Ids = map<bytes, nat>

  /** The digit string after `s`. */
  function Successor(s: bytes): (r: bytes)
    requires forall k :: 0 <= k < |s| ==> IsDigit(s[k])
    ensures r != [] && forall k :: 0 <= k < |r| ==> IsDigit(r[k])
  {
    if s == [] then "1"
    else if s[|s| - 1] == '9' then Successor(s[..|s| - 1]) + "0"
    else
      assert IsDigit(s[|s| - 1]);
      s[..|s| - 1] + [(s[|s| - 1] as int + 1) as char]
  }

  /** The decimal representation of a number. */
  function Decimal(n: nat): (s: bytes)
    ensures s != [] && forall k :: 0 <= k < |s| ==> IsDigit(s[k])
  {
    if n == 0 then "0" else Successor(Decimal(n - 1))
  }

  lemma {:induction false} SuccessorCounts(s: bytes)
    requires forall k :: 0 <= k < |s| ==> IsDigit(s[k])
    ensures Unescape.Numeral(false, Successor(s)) == Unescape.Numeral(false, s) + 1
  {
    var r := Successor(s);
    if s == [] {
      assert r[..0] == [];
    } else if s[|s| - 1] == '9' {
      SuccessorCounts(s[..|s| - 1]);
      assert r[..|r| - 1] == Successor(s[..|s| - 1]);
    } else {
      assert r[..|r| - 1] == s[..|s| - 1];
    }
  }

  /** Read as a numeral it is the number again. */
  lemma {:induction false} DecimalDenotes(n: nat)
    ensures Unescape.Numeral(false, Decimal(n)) == n
  {
    if n == 0 {
      assert "0"[..0] == [];
    } else {
      DecimalDenotes(n - 1);
      SuccessorCounts(Decimal(n - 1));
    }
  }

  lemma DecimalInjective(m: nat, n: nat)
    requires Decimal(m) == Decimal(n)
    ensures m == n
  {
    DecimalDenotes(m);
    DecimalDenotes(n);
  }

  function Numbered(id: bytes, n: nat): bytes { id + "-" + Decimal(n) }

  lemma NumberedInjective(id: bytes, m: nat, n: nat)
    requires Numbered(id, m) == Numbered(id, n)
    ensures m == n
  {
    assert Numbered(id, m)[|id| + 1..] == Decimal(m) && Numbered(id, n)[|id| + 1..] == Decimal(n);
    DecimalInjective(m, n);
  }

  /** Known ids at least as long as the candidate: what the search can still hit. */
  ghost function Ahead(ids: Ids, id: bytes): set<bytes> { set k | k in ids && |k| >= |id| }

  lemma SearchShrinks(ids: Ids, id: bytes, longer: bytes)
    requires id in ids && |longer| > |id|
    ensures Ahead(ids, longer) < Ahead(ids, id)
  {
    assert id in Ahead(ids, id) && id !in Ahead(ids, longer);
  }

  /** The id given out for a request, and the table afterwards. */
  function UniqueId(ids: Ids, id: bytes): (bytes, Ids)
    decreases Ahead(ids, id)
  {
    if id !in ids then (id, ids[id := 0])
    else
      var tmp := Numbered(id, ids[id] + 1);
      if tmp !in ids then (tmp, ids[id := ids[id] + 1][tmp := 0])
      else
        SearchShrinks(ids, id, id + "-1");
        UniqueId(ids, id + "-1")
  }

  /** The id is new, extends the request, and is the only key added; a request for a
      new id is granted as it stands. */
  lemma {:induction false} UniqueIdIsNew(ids: Ids, id: bytes)
    ensures var (r, ids') := UniqueId(ids, id);
            && r !in ids && id <= r && ids'.Keys == ids.Keys + {r}
            && (r == id <==> id !in ids)
            && (forall k :: k in ids ==> ids[k] <= ids'[k])
    decreases Ahead(ids, id)
  {
    if id in ids && Numbered(id, ids[id] + 1) in ids {
      SearchShrinks(ids, id, id + "-1");
      UniqueIdIsNew(ids, id + "-1");
    } else if id in ids {
      assert id <= Numbered(id, ids[id] + 1);
    }
  }

  /** The ids given out for a run of requests. */
  function Grant(ids: Ids, requests: seq<bytes>): (seq<bytes>, Ids) {
    if requests == [] then ([], ids)
    else
      var (before, ids') := Grant(ids, requests[..|requests| - 1]);
      var (r, ids'') := UniqueId(ids', requests[|requests| - 1]);
      (before + [r], ids'')
  }

  /** What a run of requests promises. */
  ghost predicate Granted(ids: Ids, requests: seq<bytes>, given: seq<bytes>, ids': Ids) {
    && |given| == |requests|
    && (forall i, j :: 0 <= i < j < |given| ==> given[i] != given[j])
    && (forall i :: 0 <= i < |given| ==> given[i] !in ids && requests[i] <= given[i])
    && ids'.Keys == ids.Keys + (set r | r in given)
  }

  /** Over a whole run the ids are pairwise distinct, each extends its request, and
      the table's keys are exactly the ids given out so far. */
  lemma {:induction false} GrantDistinct(ids: Ids, requests: seq<bytes>)
    ensures Granted(ids, requests, Grant(ids, requests).0, Grant(ids, requests).1)
  {
    if requests != [] {
      var n := |requests| - 1;
      GrantDistinct(ids, requests[..n]);
      var (before, ids') := Grant(ids, requests[..n]);
      UniqueIdIsNew(ids', requests[n]);
      var (r, ids'') := UniqueId(ids', requests[n]);
      hide Grant, UniqueId;
      GrantedMore(ids, requests, before, ids', r, ids'');
    }
  }

  lemma GrantedMore(ids: Ids, requests: seq<bytes>, before: seq<bytes>, ids': Ids, r: bytes, ids'': Ids)
    requires requests != [] && Granted(ids, requests[..|requests| - 1], before, ids')
    requires r !in ids' && requests[|requests| - 1] <= r && ids''.Keys == ids'.Keys + {r}
    ensures Granted(ids, requests, before + [r], ids'')
  {
    var n, given := |requests| - 1, before + [r];
    assert (set x | x in given) == (set x | x in before) + {r};
    forall i | 0 <= i < |given| ensures given[i] !in ids && requests[i] <= given[i] {
      if i < n {
        assert given[i] == before[i] && requests[..n][i] == requests[i];
      } else {
        assert ids.Keys <= ids'.Keys;
      }
    }
    forall i, j | 0 <= i < j < |given| ensures given[i] != given[j] {
      assert given[i] == before[i] && given[i] in ids'.Keys;
    }
  }

  /** Requests that do not collide come back unchanged. */
  lemma {:induction false} GrantFresh(ids: Ids, requests: seq<bytes>)
    requires forall i :: 0 <= i < |requests| ==> requests[i] !in ids
    requires forall i, j :: 0 <= i < j < |requests| ==> requests[i] != requests[j]
    ensures Grant(ids, requests).0 == requests
  {
    if requests != [] {
      var n := |requests| - 1;
      var (before, ids') := Grant(ids, requests[..n]);
      assert Grant(ids, requests).0 == before + [UniqueId(ids', requests[n]).0];
      hide Grant, UniqueId;
      GrantFresh(ids, requests[..n]);
      GrantDistinct(ids, requests[..n]);
      assert before == requests[..n] && requests[n] !in before;
      assert requests[n] !in ids';
      UniqueIdIsNew(ids', requests[n]);
    }
  }

  // ----- one heading repeated -----

  function Suffixed(id: bytes, k: nat): bytes { if k == 0 then id else Numbered(id, k) }

  /** The table after `n` requests for one id. */
  ghost predicate Counted(ids: Ids, id: bytes, n: nat) {
    && n > 0 && id in ids && ids[id] == n - 1
    && (forall k :: n <= k ==> Suffixed(id, k) !in ids)
  }

  lemma CountedNext(ids: Ids, id: bytes, n: nat)
    requires Counted(ids, id, n)
    ensures UniqueId(ids, id).0 == Suffixed(id, n) && Counted(UniqueId(ids, id).1, id, n + 1)
  {
    assert Suffixed(id, n) !in ids && Suffixed(id, n) == Numbered(id, ids[id] + 1);
    var ids' := UniqueId(ids, id).1;
    forall k | n + 1 <= k ensures Suffixed(id, k) !in ids' {
      assert Suffixed(id, k) !in ids;
      if Suffixed(id, k) == Suffixed(id, n) { NumberedInjective(id, k, n); }
      assert |Suffixed(id, k)| > |id|;
    }
  }

  lemma CountedFirst(id: bytes)
    ensures UniqueId(map[], id).0 == id && Counted(UniqueId(map[], id).1, id, 1)
  {
    forall k | 1 <= k ensures Suffixed(id, k) !in map[id := 0 as nat] {
      assert |Suffixed(id, k)| > |id|;
    }
  }

  /** `n` requests for `foo` give `foo`, `foo-1`, `foo-2`, … in that order. */
  lemma {:induction false} RepeatedHeading(id: bytes, n: nat)
    ensures Grant(map[], seq(n, _ => id)).0 == seq(n, k requires 0 <= k => Suffixed(id, k))
    ensures n > 0 ==> Counted(Grant(map[], seq(n, _ => id)).1, id, n)
  {
    if n > 0 {
      RepeatedHeading(id, n - 1);
      var reqs := seq(n, _ => id);
      assert reqs[..n - 1] == seq(n - 1, _ => id);
      var (before, ids) := Grant(map[], reqs[..n - 1]);
      if n == 1 {
        CountedFirst(id);
        assert reqs[..0] == [];
      } else {
        CountedNext(ids, id, n - 1);
      }
      assert before + [Suffixed(id, n - 1)] == seq(n, k requires 0 <= k => Suffixed(id, k));
    }
  }
}
