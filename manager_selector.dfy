/**
  The two strategies that order the candidate worker-managers of the high-throughput
  executor before tasks are dispatched to them.
  Both take the table of ready managers and the list of candidate ids and return an
  ordering of that list.
 */
module ManagerSelector {
  import opened Optional
  import opened PyStr

  newtype byte = b: int | 0 <= b < 256

  /** Managers identify themselves with a `bytes` value. */
  type ManagerId = seq<byte>

  /** The one field of a manager record the strategies read: the block that hosts it, if known. */
  datatype ManagerRecord = ManagerRecord(blockId: Option<string>)

  type ReadyManagers = map<ManagerId, ManagerRecord>

  /** Every candidate has a record; a missing one would make `ready_managers[m]` raise. */
  predicate AllReady(ready: ReadyManagers, s: seq<ManagerId>) {
    forall m :: m in s ==> m in ready
  }

  /**
    The sort key (`get_block_id`): the block id, or `""` for a manager without one.
    A missing block id and an empty one are indistinguishable to the sort.
   */
  function BlockKey(ready: ReadyManagers, m: ManagerId): (key: string)
    requires m in ready
    ensures key == [] <==> ready[m].blockId == None || ready[m].blockId == Some([])
    ensures ready[m].blockId.Some? ==> key == ready[m].blockId.value
  {
    ready[m].blockId.GetOr("")
  }

  // ---------------------------------------------------------------- specification

  /** Reading left to right, keys never increase. */
  predicate NonIncreasing(ready: ReadyManagers, s: seq<ManagerId>)
    requires AllReady(ready, s)
  {
    forall i, j :: 0 <= i < j < |s| ==> !Below(BlockKey(ready, s[i]), BlockKey(ready, s[j]))
  }

  /** The managers of `s` whose key is `k`, in their order in `s`. */
  function WithKey(ready: ReadyManagers, s: seq<ManagerId>, k: string): seq<ManagerId>
    requires AllReady(ready, s)
  {
    if s == [] then []
    else (if BlockKey(ready, s[0]) == k then [s[0]] else []) + WithKey(ready, s[1..], k)
  }

  /** `r` groups the managers of equal key exactly as `s` orders them: the sort is stable. */
  ghost predicate KeepsTieOrder(ready: ReadyManagers, r: seq<ManagerId>, s: seq<ManagerId>)
    requires AllReady(ready, r) && AllReady(ready, s)
  {
    forall k :: WithKey(ready, r, k) == WithKey(ready, s, k)
  }

  // ---------------------------------------------------------------- the sort

  /**
    Put `m` in front of the first manager whose key is not greater than its own.
    `m` came earlier in the input than everything in `s`, so it goes ahead of its ties.
   */
  function Insert(ready: ReadyManagers, m: ManagerId, s: seq<ManagerId>): (r: seq<ManagerId>)
    requires m in ready && AllReady(ready, s)
    ensures multiset(r) == multiset(s) + multiset{m}
    ensures forall x :: x in r ==> x == m || x in s
    ensures AllReady(ready, r)
  {
    if s == [] || !Below(BlockKey(ready, m), BlockKey(ready, s[0])) then [m] + s
    else
      assert s == [s[0]] + s[1..];
      [s[0]] + Insert(ready, m, s[1..])
  }

  /** A stable sort in descending order of `BlockKey`. */
  function SortDescending(ready: ReadyManagers, s: seq<ManagerId>): (r: seq<ManagerId>)
    requires AllReady(ready, s)
    ensures multiset(r) == multiset(s)
    ensures AllReady(ready, r)
  {
    if s == [] then []
    else
      assert s == [s[0]] + s[1..];
      Insert(ready, s[0], SortDescending(ready, s[1..]))
  }

  /**
    `ManagerSelectorByBlockId.sort_managers`: `sorted(manager_list, key=get_block_id,
    reverse=True)`. The result is a permutation of the candidates.
   */
  function SortManagersByBlockId(ready: ReadyManagers, managerList: seq<ManagerId>): (r: seq<ManagerId>)
    requires AllReady(ready, managerList)
    ensures multiset(r) == multiset(managerList) && |r| == |managerList|
    ensures AllReady(ready, r)
  {
    var r := SortDescending(ready, managerList);
    assert |r| == |multiset(r)|;
    r
  }

  // ---------------------------------------------------------------- its properties

  lemma {:induction false} InsertNonIncreasing(ready: ReadyManagers, m: ManagerId, s: seq<ManagerId>)
    requires m in ready && AllReady(ready, s) && NonIncreasing(ready, s)
    ensures AllReady(ready, Insert(ready, m, s)) && NonIncreasing(ready, Insert(ready, m, s))
  {
    var r := Insert(ready, m, s);
    if s == [] || !Below(BlockKey(ready, m), BlockKey(ready, s[0])) {
      forall j | 0 < j < |r|
        ensures !Below(BlockKey(ready, r[0]), BlockKey(ready, r[j]))
      {
        if j > 1 {
          NotBelowTransitive(BlockKey(ready, m), BlockKey(ready, s[0]), BlockKey(ready, s[j - 1]));
        }
      }
    } else {
      var t := Insert(ready, m, s[1..]);
      assert NonIncreasing(ready, s[1..]) by {
        forall i, j | 0 <= i < j < |s| - 1
          ensures !Below(BlockKey(ready, s[1..][i]), BlockKey(ready, s[1..][j]))
        {
          assert s[1..][i] == s[i + 1] && s[1..][j] == s[j + 1];
        }
      }
      InsertNonIncreasing(ready, m, s[1..]);
      forall j | 0 <= j < |t|
        ensures !Below(BlockKey(ready, s[0]), BlockKey(ready, t[j]))
      {
        if t[j] == m {
          BelowAsymmetric(BlockKey(ready, m), BlockKey(ready, s[0]));
        } else {
          assert t[j] in s[1..];
          var i :| 0 <= i < |s[1..]| && s[1..][i] == t[j];
          assert s[i + 1] == t[j];
        }
      }
      assert r == [s[0]] + t;
    }
  }

  /** The output of `sorted(..., reverse=True)` never increases in `BlockKey`. */
  lemma {:induction false} SortIsNonIncreasing(ready: ReadyManagers, s: seq<ManagerId>)
    requires AllReady(ready, s)
    ensures AllReady(ready, SortDescending(ready, s)) && NonIncreasing(ready, SortDescending(ready, s))
  {
    if s != [] {
      SortIsNonIncreasing(ready, s[1..]);
      InsertNonIncreasing(ready, s[0], SortDescending(ready, s[1..]));
    }
  }

  lemma WithKeyCons(ready: ReadyManagers, x: ManagerId, s: seq<ManagerId>, k: string)
    requires x in ready && AllReady(ready, s)
    ensures WithKey(ready, [x] + s, k) == (if BlockKey(ready, x) == k then [x] else []) + WithKey(ready, s, k)
  {
    assert ([x] + s)[1..] == s;
  }

  /**
    The step of `InsertWithKey` where `m` goes past a manager `x` whose key is greater:
    `x` is not among `m`'s ties, so putting `x` in front of both sides keeps them equal.
   */
  lemma ConsPastWithKey(ready: ReadyManagers, m: ManagerId, x: ManagerId, rest: seq<ManagerId>,
                        t: seq<ManagerId>, k: string)
    requires m in ready && x in ready && AllReady(ready, rest) && AllReady(ready, t)
    requires Below(BlockKey(ready, m), BlockKey(ready, x))
    requires WithKey(ready, t, k) == (if BlockKey(ready, m) == k then [m] else []) + WithKey(ready, rest, k)
    ensures WithKey(ready, [x] + t, k) == (if BlockKey(ready, m) == k then [m] else []) + WithKey(ready, [x] + rest, k)
  {
    WithKeyCons(ready, x, t, k);
    WithKeyCons(ready, x, rest, k);
    if BlockKey(ready, m) == k {
      BelowIrreflexive(k);
    }
  }

  lemma {:induction false} InsertWithKey(ready: ReadyManagers, m: ManagerId, s: seq<ManagerId>, k: string)
    requires m in ready && AllReady(ready, s)
    ensures AllReady(ready, Insert(ready, m, s))
    ensures WithKey(ready, Insert(ready, m, s), k)
         == (if BlockKey(ready, m) == k then [m] else []) + WithKey(ready, s, k)
  {
    if s == [] || !Below(BlockKey(ready, m), BlockKey(ready, s[0])) {
      WithKeyCons(ready, m, s, k);
    } else {
      InsertWithKey(ready, m, s[1..], k);
      ConsPastWithKey(ready, m, s[0], s[1..], Insert(ready, m, s[1..]), k);
      assert s == [s[0]] + s[1..];
    }
  }

  /** Managers with equal keys come out in the order they went in. */
  lemma {:induction false} SortKeepsTieOrder(ready: ReadyManagers, s: seq<ManagerId>, k: string)
    requires AllReady(ready, s)
    ensures AllReady(ready, SortDescending(ready, s))
    ensures WithKey(ready, SortDescending(ready, s), k) == WithKey(ready, s, k)
  {
    if s != [] {
      var rest := SortDescending(ready, s[1..]);
      SortKeepsTieOrder(ready, s[1..], k);
      InsertWithKey(ready, s[0], rest, k);
    }
  }

  /** `ManagerSelectorByBlockId.sort_managers` returns the candidates in non-increasing key order. */
  lemma ByBlockIdNonIncreasing(ready: ReadyManagers, managerList: seq<ManagerId>)
    requires AllReady(ready, managerList)
    ensures NonIncreasing(ready, SortManagersByBlockId(ready, managerList))
  {
    SortIsNonIncreasing(ready, managerList);
  }

  /** Python's sort is stable even with `reverse=True`: ties keep their input order. */
  lemma ByBlockIdKeepsTieOrder(ready: ReadyManagers, managerList: seq<ManagerId>)
    requires AllReady(ready, managerList)
    ensures KeepsTieOrder(ready, SortManagersByBlockId(ready, managerList), managerList)
  {
    forall k {
      SortKeepsTieOrder(ready, managerList, k);
    }
  }

  /** A manager without a block id is placed after every manager with a non-empty block id. */
  lemma ByBlockIdNoneLast(ready: ReadyManagers, managerList: seq<ManagerId>, i: nat, j: nat)
    requires AllReady(ready, managerList)
    requires i < |managerList| && j < |managerList|
    requires var r := SortManagersByBlockId(ready, managerList);
      ready[r[i]].blockId == None && ready[r[j]].blockId.Some? && ready[r[j]].blockId.value != []
    ensures j < i
  {
    var r := SortManagersByBlockId(ready, managerList);
    ByBlockIdNonIncreasing(ready, managerList);
    var ki, kj := BlockKey(ready, r[i]), BlockKey(ready, r[j]);
    assert ki == [] && kj != [];
    assert Below(ki, kj);
  }

  lemma WithKeyHead(ready: ReadyManagers, s: seq<ManagerId>)
    requires AllReady(ready, s) && s != []
    ensures WithKey(ready, s, BlockKey(ready, s[0])) == [s[0]] + WithKey(ready, s[1..], BlockKey(ready, s[0]))
  {
  }

  lemma NonIncreasingTail(ready: ReadyManagers, s: seq<ManagerId>)
    requires AllReady(ready, s) && NonIncreasing(ready, s) && s != []
    ensures AllReady(ready, s[1..]) && NonIncreasing(ready, s[1..])
  {
    forall i, j | 0 <= i < j < |s| - 1
      ensures !Below(BlockKey(ready, s[1..][i]), BlockKey(ready, s[1..][j]))
    {
      assert s[1..][i] == s[i + 1] && s[1..][j] == s[j + 1];
    }
  }

  lemma {:induction false} WithKeyMember(ready: ReadyManagers, s: seq<ManagerId>, k: string, m: ManagerId)
    requires AllReady(ready, s) && m in WithKey(ready, s, k)
    ensures m in s && BlockKey(ready, m) == k
  {
    if s != [] {
      var head := if BlockKey(ready, s[0]) == k then [s[0]] else [];
      assert WithKey(ready, s, k) == head + WithKey(ready, s[1..], k);
      if m !in head {
        WithKeyMember(ready, s[1..], k, m);
      }
    }
  }

  /** The head of a non-empty non-increasing list carries its largest key. */
  lemma HeadIsMax(ready: ReadyManagers, s: seq<ManagerId>, m: ManagerId)
    requires AllReady(ready, s) && NonIncreasing(ready, s) && s != [] && m in s
    ensures !Below(BlockKey(ready, s[0]), BlockKey(ready, m))
  {
    var j :| 0 <= j < |s| && s[j] == m;
    if j == 0 {
      BelowIrreflexive(BlockKey(ready, m));
    }
  }

  /** Two non-increasing lists that order every group of ties alike start alike. */
  lemma HeadsAgree(ready: ReadyManagers, s: seq<ManagerId>, t: seq<ManagerId>)
    requires AllReady(ready, s) && AllReady(ready, t) && s != [] && t != []
    requires NonIncreasing(ready, s) && NonIncreasing(ready, t)
    requires KeepsTieOrder(ready, s, t)
    ensures s[0] == t[0]
  {
    var k0, k1 := BlockKey(ready, s[0]), BlockKey(ready, t[0]);
    WithKeyHead(ready, s);
    WithKeyHead(ready, t);
    // s's largest key occurs in t, hence is at most t's largest, and vice versa
    assert WithKey(ready, t, k0) == WithKey(ready, s, k0);
    WithKeyMember(ready, t, k0, s[0]);
    HeadIsMax(ready, t, s[0]);
    assert WithKey(ready, s, k1) == WithKey(ready, t, k1);
    WithKeyMember(ready, s, k1, t[0]);
    HeadIsMax(ready, s, t[0]);
    if k0 != k1 {
      BelowTotal(k0, k1);
    }
    assert k0 == k1;
    assert WithKey(ready, t, k0)[0] == t[0] && WithKey(ready, s, k0)[0] == s[0];
  }

  lemma TailsKeepTieOrder(ready: ReadyManagers, s: seq<ManagerId>, t: seq<ManagerId>)
    requires AllReady(ready, s) && AllReady(ready, t) && s != [] && t != [] && s[0] == t[0]
    requires KeepsTieOrder(ready, s, t)
    ensures AllReady(ready, s[1..]) && AllReady(ready, t[1..])
    ensures KeepsTieOrder(ready, s[1..], t[1..])
  {
    forall k
      ensures WithKey(ready, s[1..], k) == WithKey(ready, t[1..], k)
    {
      var head := if BlockKey(ready, s[0]) == k then [s[0]] else [];
      assert WithKey(ready, s, k) == head + WithKey(ready, s[1..], k);
      assert WithKey(ready, t, k) == head + WithKey(ready, t[1..], k);
      assert WithKey(ready, s, k) == WithKey(ready, t, k);
      assert WithKey(ready, s[1..], k) == (head + WithKey(ready, s[1..], k))[|head|..];
      assert WithKey(ready, t[1..], k) == (head + WithKey(ready, t[1..], k))[|head|..];
    }
  }

  /** `WithKey` finds the head's own key in a non-empty list. */
  lemma WithKeyNonEmpty(ready: ReadyManagers, s: seq<ManagerId>)
    requires AllReady(ready, s) && s != []
    ensures WithKey(ready, s, BlockKey(ready, s[0])) != []
  {
  }

  /** Two non-increasing lists that order every group of ties alike are equal. */
  lemma {:induction false} NonIncreasingUnique(ready: ReadyManagers, s: seq<ManagerId>, t: seq<ManagerId>)
    requires AllReady(ready, s) && AllReady(ready, t)
    requires NonIncreasing(ready, s) && NonIncreasing(ready, t)
    requires KeepsTieOrder(ready, s, t)
    ensures s == t
  {
    if t != [] {
      WithKeyNonEmpty(ready, t);
    }
    if s != [] {
      WithKeyNonEmpty(ready, s);
    }
    if s != [] && t != [] {
      HeadsAgree(ready, s, t);
      NonIncreasingTail(ready, s);
      NonIncreasingTail(ready, t);
      TailsKeepTieOrder(ready, s, t);
      NonIncreasingUnique(ready, s[1..], t[1..]);
      assert s == [s[0]] + s[1..] && t == [t[0]] + t[1..];
    }
  }

  /**
    Non-increasing order plus stable ties characterise the result completely: a list of
    ready managers is the output of `sort_managers` exactly when it has both properties.
   */
  lemma ByBlockIdCharacterised(ready: ReadyManagers, managerList: seq<ManagerId>, r: seq<ManagerId>)
    requires AllReady(ready, managerList) && AllReady(ready, r)
    ensures r == SortManagersByBlockId(ready, managerList)
        <==> NonIncreasing(ready, r) && KeepsTieOrder(ready, r, managerList)
  {
    var sorted := SortManagersByBlockId(ready, managerList);
    ByBlockIdNonIncreasing(ready, managerList);
    ByBlockIdKeepsTieOrder(ready, managerList);
    if NonIncreasing(ready, r) && KeepsTieOrder(ready, r, managerList) {
      NonIncreasingUnique(ready, r, sorted);
    }
  }

  /** Keys compare as strings, not numbers: the manager of block "2" precedes that of block "10". */
  lemma ByBlockIdStringOrder()
    ensures var ready := map[[1] := ManagerRecord(Some("10")), [2] := ManagerRecord(Some("2"))];
      SortManagersByBlockId(ready, [[1], [2]]) == [[2], [1]]
  {
    var ready := map[[1] := ManagerRecord(Some("10")), [2] := ManagerRecord(Some("2"))];
    assert Below("10", "2");
    assert [[1 as byte], [2]][1..] == [[2]];
    assert SortDescending(ready, [[2]]) == [[2]] by {
      assert [[2 as byte]][1..] == [];
    }
  }

  // ---------------------------------------------------------------- random strategy

  /**
    `ManagerSelectorRandom.sort_managers`: shuffle a copy of the candidate list in place,
    as `random.shuffle` does (Fisher-Yates from the back). Each `j` is any index allowed,
    so the result is every possible permutation; the distribution is not modelled.
    The method modifies nothing it is given: the caller's list is left alone.
   */
  method SortManagersRandom(ready: ReadyManagers, managerList: array<ManagerId>) returns (r: seq<ManagerId>)
    ensures |r| == managerList.Length
    ensures multiset(r) == multiset(managerList[..])
  {
    var c := new ManagerId[managerList.Length](i reads managerList requires 0 <= i < managerList.Length => managerList[i]);
    assert c[..] == managerList[..];
    var i := c.Length - 1;
    while i > 0
      invariant i < c.Length
      invariant multiset(c[..]) == multiset(managerList[..])
    {
      var j :| 0 <= j <= i;
      c[i], c[j] := c[j], c[i];
      i := i - 1;
    }
    r := c[..];
  }
}
