/**
 * What the handler promises, proved about its meaning `Dispatch` (and so,
 * through `Handle`'s postcondition, about the handler itself).
 */
module Properties {
  import opened Wrappers
  import opened Wire
  import opened Commands
  import opened Store
  import opened Dispatcher

  /** The keys named in a request, as a set. */
  function Elems(keys: seq<string>): set<string>
  {
    set k | k in keys
  }

  lemma ElemsCons(keys: seq<string>)
    requires keys != []
    ensures Elems(keys) == {keys[0]} + Elems(keys[1..])
  {
    forall x ensures x in Elems(keys) <==> x == keys[0] || x in Elems(keys[1..]) {
      if x in keys && x != keys[0] {
        var i :| 0 <= i < |keys| && keys[i] == x;
        assert keys[1..][i - 1] == x;
      }
    }
  }

  lemma RemoveInTurn(rows: Rows, k: string, rest: set<string>)
    ensures (rows - {k}).Keys == rows.Keys - {k}
    ensures (rows - {k}) - rest == rows - ({k} + rest)
  {
  }

  /**
   * No statement from number `from` on fails: `NoFaultsIn` (below) for
   * every count of statements, as `NoFaultsFromIn` states.
   */
  predicate NoFaultsFrom(faults: seq<Option<string>>, from: nat)
  {
    forall j :: from <= j < |faults| ==> faults[j].None?
  }

  // ---------------------------------------------------------------- DEL

  lemma CountStep(k: string, rest: set<string>, present: set<string>)
    ensures |({k} + rest) * present| == (if k in present then 1 else 0) + |rest * (present - {k})|
  {
    var others := rest * (present - {k});
    if k in present {
      assert ({k} + rest) * present == others + {k};
      assert k !in others;
    } else {
      assert ({k} + rest) * present == others;
    }
  }

  /**
   * How many keys of a list are present when their own turn comes, each
   * key leaving the set once it has been counted.
   */
  function CountPresent(keys: seq<string>, present: set<string>): nat
    decreases |keys|
  {
    if keys == [] then 0
    else (if keys[0] in present then 1 else 0) + CountPresent(keys[1..], present - {keys[0]})
  }

  /** That count is the number of distinct keys of the list that are present. */
  lemma {:induction false} CountPresentDistinct(keys: seq<string>, present: set<string>)
    ensures CountPresent(keys, present) == |Elems(keys) * present|
    decreases |keys|
  {
    if keys == [] {
      assert Elems(keys) == {};
    } else {
      ElemsCons(keys);
      CountPresentDistinct(keys[1..], present - {keys[0]});
      CountStep(keys[0], Elems(keys[1..]), present);
    }
  }

  /**
   * A DEL whose statements all succeed counts the keys present when their
   * turn comes, and leaves the table without any of its keys and otherwise
   * unchanged.
   */
  lemma {:induction false} DelLoopCounts(keys: seq<string>, rows: Rows, faults: seq<Option<string>>, next: nat, count: nat)
    requires NoFaultsFrom(faults, next)
    ensures DelLoop(keys, rows, faults, next, count).reply == Int(count + CountPresent(keys, rows.Keys))
    ensures DelLoop(keys, rows, faults, next, count).rows == rows - Elems(keys)
    decreases |keys|
  {
    if keys == [] {
      assert Elems(keys) == {};
    } else {
      var k, rest := keys[0], keys[1..];
      var s := DelKeyOn(rows, k, FaultAt(faults, next), FaultAt(faults, next + 1));
      DelKeyClean(rows, k, faults, next);
      var next', count' := next + |s.issued|, count + if k in rows then 1 else 0;
      var o' := DelLoop(rest, rows - {k}, faults, next', count');
      assert DelLoop(keys, rows, faults, next, count) == Prepend(s.issued, o');
      DelLoopCounts(rest, rows - {k}, faults, next', count');
      ElemsCons(keys);
      RemoveInTurn(rows, k, Elems(rest));
    }
  }

  /** None of the `n` statements numbered from `from` on fails. */
  predicate NoFaultsIn(faults: seq<Option<string>>, from: nat, n: nat)
  {
    forall i :: from <= i < from + n ==> FaultAt(faults, i).None?
  }

  /** Statements with no fault from `from` on include any `n` of them numbered from `from`. */
  lemma NoFaultsFromIn(faults: seq<Option<string>>, from: nat, n: nat)
    requires NoFaultsFrom(faults, from)
    ensures NoFaultsIn(faults, from, n)
  {
  }

  /**
   * The first delkey of a DEL none of whose own statements fails: it
   * succeeds, deletes its key, and the rest of the DEL's statements still
   * do not fail.
   */
  lemma DelLoopCleanFirst(keys: seq<string>, rows: Rows, faults: seq<Option<string>>, next: nat, count: nat, s: DelStep)
    requires keys != [] && s == DelKeyOn(rows, keys[0], FaultAt(faults, next), FaultAt(faults, next + 1))
    requires NoFaultsIn(faults, next, |DelLoop(keys, rows, faults, next, count).issued|)
    ensures s.err.None? && s.rows == rows - {keys[0]}
    ensures NoFaultsIn(faults, next + |s.issued|,
      |DelLoop(keys[1..], s.rows, faults, next + |s.issued|, count + if s.deleted then 1 else 0).issued|)
  {
    assert FaultAt(faults, next).None?;
    DelKeyReports(rows, keys[0], FaultAt(faults, next), FaultAt(faults, next + 1));
    DelLoopConsAt(keys, rows, faults, next, count, s);
  }

  /**
   * A DEL none of whose own statements fails (later statements may) replies
   * with a count and leaves the table without any of its keys and
   * otherwise unchanged.
   */
  lemma {:induction false} DelLoopCleanRows(keys: seq<string>, rows: Rows, faults: seq<Option<string>>, next: nat, count: nat)
    requires NoFaultsIn(faults, next, |DelLoop(keys, rows, faults, next, count).issued|)
    ensures DelLoop(keys, rows, faults, next, count).reply.Int?
    ensures DelLoop(keys, rows, faults, next, count).rows == rows - Elems(keys)
    decreases |keys|
  {
    if keys == [] {
      assert Elems(keys) == {};
    } else {
      var s := DelKeyOn(rows, keys[0], FaultAt(faults, next), FaultAt(faults, next + 1));
      DelLoopCleanFirst(keys, rows, faults, next, count, s);
      DelLoopConsAt(keys, rows, faults, next, count, s);
      DelLoopCleanRows(keys[1..], s.rows, faults, next + |s.issued|, count + if s.deleted then 1 else 0);
      ElemsCons(keys);
      RemoveInTurn(rows, keys[0], Elems(keys[1..]));
    }
  }

  /** One delkey call with no failing statement: it deletes the key, and reports whether it was present. */
  lemma DelKeyClean(rows: Rows, k: string, faults: seq<Option<string>>, next: nat)
    requires NoFaultsFrom(faults, next)
    ensures var s := DelKeyOn(rows, k, FaultAt(faults, next), FaultAt(faults, next + 1));
      s.err.None? && s.deleted == (k in rows) && s.rows == rows - {k} && NoFaultsFrom(faults, next + |s.issued|)
  {
    assert FaultAt(faults, next).None? && FaultAt(faults, next + 1).None?;
    DelKeyReports(rows, k, FaultAt(faults, next), FaultAt(faults, next + 1));
    if k !in rows {
      assert rows - {k} == rows;
    }
  }

  /**
   * How many keys a DEL gets through before some key's delkey returns an
   * error: all of them when none does. A lookup failing with the NoRows
   * text is not such an error; it reads as an absent key.
   */
  function FailingKey(keys: seq<string>, rows: Rows, faults: seq<Option<string>>, next: nat): (j: nat)
    ensures j <= |keys|
    decreases |keys|
  {
    if keys == [] then 0
    else
      var s := DelKeyOn(rows, keys[0], FaultAt(faults, next), FaultAt(faults, next + 1));
      if s.err.Some? then 0 else 1 + FailingKey(keys[1..], s.rows, faults, next + |s.issued|)
  }

  /** A DEL whose first delkey, with outcome `s`, succeeds goes on with the rest of the keys. */
  lemma DelLoopConsAt(keys: seq<string>, rows: Rows, faults: seq<Option<string>>, next: nat, count: nat, s: DelStep)
    requires keys != []
    requires s == DelKeyOn(rows, keys[0], FaultAt(faults, next), FaultAt(faults, next + 1)) && s.err.None?
    ensures DelLoop(keys, rows, faults, next, count) ==
      Prepend(s.issued, DelLoop(keys[1..], s.rows, faults, next + |s.issued|, count + if s.deleted then 1 else 0))
    ensures FailingKey(keys, rows, faults, next) == 1 + FailingKey(keys[1..], s.rows, faults, next + |s.issued|)
  {
  }

  /**
   * A DEL replies with an error exactly when some key's delkey returns an
   * error before its last key is done (a lookup failing with the NoRows
   * text reads as an absent key and is not such an error).
   */
  lemma {:induction false} DelLoopFailsAt(keys: seq<string>, rows: Rows, faults: seq<Option<string>>, next: nat, count: nat)
    ensures DelLoop(keys, rows, faults, next, count).reply.Error? <==> FailingKey(keys, rows, faults, next) < |keys|
    decreases |keys|
  {
    if keys != [] {
      var s := DelKeyOn(rows, keys[0], FaultAt(faults, next), FaultAt(faults, next + 1));
      if s.err.None? {
        DelLoopConsAt(keys, rows, faults, next, count, s);
        DelLoopFailsAt(keys[1..], s.rows, faults, next + |s.issued|, count + if s.deleted then 1 else 0);
      }
    }
  }

  /**
   * The keys `pre` before the failing one, when there are some: the first
   * delkey succeeds, and the rest of `pre` are the keys before the failing
   * one among the rest of the keys.
   */
  lemma PrefixTail(keys: seq<string>, pre: seq<string>, rows: Rows, faults: seq<Option<string>>, next: nat, s: DelStep)
    requires pre == keys[..FailingKey(keys, rows, faults, next)] && pre != []
    requires s == DelKeyOn(rows, keys[0], FaultAt(faults, next), FaultAt(faults, next + 1))
    ensures s.err.None? && pre[0] == keys[0]
    ensures pre[1..] == keys[1..][..FailingKey(keys[1..], s.rows, faults, next + |s.issued|)]
  {
  }

  /** A DEL whose first delkey fails sends that delkey's statements and nothing else. */
  lemma StopFirst(keys: seq<string>, rows: Rows, faults: seq<Option<string>>, next: nat, count: nat)
    requires keys != [] && FailingKey(keys, rows, faults, next) == 0
    ensures StopsWith(DelLoop(keys, rows, faults, next, count), DelLoop([], rows, faults, next, count), keys[0])
  {
    var s := DelKeyOn(rows, keys[0], FaultAt(faults, next), FaultAt(faults, next + 1));
    assert DelLoop(keys, rows, faults, next, count).issued[0..] == s.issued;
  }

  /** `p` replies with a count, leaves the table as `o` does, and sent the first statements `o` sent. */
  predicate PrefixOf(o: Outcome, p: Outcome)
  {
    p.reply.Int? && o.rows == p.rows && p.issued <= o.issued
  }

  /** One step of DelLoopPrefixAt: from the keys after the first, with its delkey `s`, to all of them. */
  lemma DelLoopPrefixStep(keys: seq<string>, pre: seq<string>, rows: Rows, faults: seq<Option<string>>, next: nat, count: nat, s: DelStep)
    requires 0 < |pre| <= |keys| && pre[0] == keys[0]
    requires s == DelKeyOn(rows, keys[0], FaultAt(faults, next), FaultAt(faults, next + 1)) && s.err.None?
    requires PrefixOf(DelLoop(keys[1..], s.rows, faults, next + |s.issued|, count + if s.deleted then 1 else 0),
      DelLoop(pre[1..], s.rows, faults, next + |s.issued|, count + if s.deleted then 1 else 0))
    ensures PrefixOf(DelLoop(keys, rows, faults, next, count), DelLoop(pre, rows, faults, next, count))
  {
    DelLoopConsAt(keys, rows, faults, next, count, s);
    DelLoopConsAt(pre, rows, faults, next, count, s);
  }

  /** DelLoopPrefix, with the keys before the failing one given as `pre`. */
  lemma {:induction false} DelLoopPrefixAt(keys: seq<string>, pre: seq<string>, rows: Rows, faults: seq<Option<string>>, next: nat, count: nat)
    requires pre == keys[..FailingKey(keys, rows, faults, next)]
    ensures PrefixOf(DelLoop(keys, rows, faults, next, count), DelLoop(pre, rows, faults, next, count))
    decreases |keys|
  {
    if pre != [] {
      var s := DelKeyOn(rows, keys[0], FaultAt(faults, next), FaultAt(faults, next + 1));
      PrefixTail(keys, pre, rows, faults, next, s);
      DelLoopPrefixAt(keys[1..], pre[1..], s.rows, faults, next + |s.issued|, count + if s.deleted then 1 else 0);
      DelLoopPrefixStep(keys, pre, rows, faults, next, count, s);
    }
  }

  /**
   * A DEL leaves the table as a DEL of only the keys before the failing one
   * does, which replies with a count, so the deletions already made stay
   * applied.
   */
  lemma DelLoopPrefix(keys: seq<string>, rows: Rows, faults: seq<Option<string>>, next: nat, count: nat)
    ensures var o := DelLoop(keys, rows, faults, next, count);
      var p := DelLoop(keys[..FailingKey(keys, rows, faults, next)], rows, faults, next, count);
      p.reply.Int? && o.rows == p.rows && p.issued <= o.issued
  {
    DelLoopPrefixAt(keys, keys[..FailingKey(keys, rows, faults, next)], rows, faults, next, count);
  }

  /** The statements one delkey of `key` sends: its lookup, and a delete when the lookup found the key. */
  predicate DelKeyStmts(stmts: seq<Stmt>, key: string)
  {
    stmts == [SelectValue(key)] || stmts == [SelectValue(key), DeleteKey(key)]
  }

  /** `o` sends the statements of `p`, then those of one delkey of `key`, and nothing else. */
  predicate StopsWith(o: Outcome, p: Outcome, key: string)
  {
    |p.issued| <= |o.issued| && o.issued[..|p.issued|] == p.issued && DelKeyStmts(o.issued[|p.issued|..], key)
  }

  /**
   * A failing DEL and the DEL of the keys before the failure, both after the
   * same first delkey: the second's statements, then the failing delkey's.
   */
  lemma StopCombine(o: Outcome, o': Outcome, p: Outcome, p': Outcome, first: seq<Stmt>, key: string)
    requires o == Prepend(first, o') && p == Prepend(first, p')
    requires StopsWith(o', p', key)
    ensures StopsWith(o, p, key)
  {
    assert o.issued[|p.issued|..] == o'.issued[|p'.issued|..];
  }

  /** One step of DelLoopStopsAt: from the keys after the first, with its delkey `s`, to all of them. */
  lemma DelLoopStopStep(keys: seq<string>, pre: seq<string>, rows: Rows, faults: seq<Option<string>>, next: nat, count: nat, s: DelStep)
    requires 0 < |pre| < |keys| && pre[0] == keys[0]
    requires s == DelKeyOn(rows, keys[0], FaultAt(faults, next), FaultAt(faults, next + 1)) && s.err.None?
    requires StopsWith(DelLoop(keys[1..], s.rows, faults, next + |s.issued|, count + if s.deleted then 1 else 0),
      DelLoop(pre[1..], s.rows, faults, next + |s.issued|, count + if s.deleted then 1 else 0), keys[1..][|pre[1..]|])
    ensures StopsWith(DelLoop(keys, rows, faults, next, count), DelLoop(pre, rows, faults, next, count), keys[|pre|])
  {
    DelLoopConsAt(keys, rows, faults, next, count, s);
    DelLoopConsAt(pre, rows, faults, next, count, s);
    assert keys[1..][|pre[1..]|] == keys[|pre|];
    StopCombine(DelLoop(keys, rows, faults, next, count),
      DelLoop(keys[1..], s.rows, faults, next + |s.issued|, count + if s.deleted then 1 else 0),
      DelLoop(pre, rows, faults, next, count),
      DelLoop(pre[1..], s.rows, faults, next + |s.issued|, count + if s.deleted then 1 else 0),
      s.issued, keys[|pre|]);
  }

  /**
   * A DEL that fails sends the statements of the DEL of the keys `pre`
   * before the failing one, then those of the failing key's delkey, and
   * nothing after them.
   */
  lemma {:induction false} DelLoopStopsAt(keys: seq<string>, pre: seq<string>, rows: Rows, faults: seq<Option<string>>, next: nat, count: nat)
    requires pre == keys[..FailingKey(keys, rows, faults, next)] && |pre| < |keys|
    ensures StopsWith(DelLoop(keys, rows, faults, next, count), DelLoop(pre, rows, faults, next, count), keys[|pre|])
    decreases |keys|
  {
    if pre == [] {
      StopFirst(keys, rows, faults, next, count);
    } else {
      var s := DelKeyOn(rows, keys[0], FaultAt(faults, next), FaultAt(faults, next + 1));
      PrefixTail(keys, pre, rows, faults, next, s);
      DelLoopStopsAt(keys[1..], pre[1..], s.rows, faults, next + |s.issued|, count + if s.deleted then 1 else 0);
      DelLoopStopStep(keys, pre, rows, faults, next, count, s);
    }
  }

  /**
   * When the statements a failing DEL sends for the keys before the failing
   * one all succeed, those keys stay deleted: the table is left without
   * them and otherwise unchanged.
   */
  lemma DelLoopKeepsDeletions(keys: seq<string>, rows: Rows, faults: seq<Option<string>>, next: nat, count: nat)
    requires var j := FailingKey(keys, rows, faults, next);
      NoFaultsIn(faults, next, |DelLoop(keys[..j], rows, faults, next, count).issued|)
    ensures DelLoop(keys, rows, faults, next, count).rows == rows - Elems(keys[..FailingKey(keys, rows, faults, next)])
  {
    DelLoopPrefix(keys, rows, faults, next, count);
    DelLoopCleanRows(keys[..FailingKey(keys, rows, faults, next)], rows, faults, next, count);
  }

  /** `after` is `before` with at most the keys in `named` removed and every other row kept as it was. */
  predicate OnlyRemoves(after: Rows, before: Rows, named: set<string>)
  {
    && after.Keys <= before.Keys
    && (forall k :: k in after ==> after[k] == before[k])
    && (forall k :: k in before && k !in named ==> k in after)
  }

  lemma OnlyRemovesThen(a: Rows, b: Rows, c: Rows, first: set<string>, second: set<string>)
    requires OnlyRemoves(b, a, first) && OnlyRemoves(c, b, second)
    ensures OnlyRemoves(c, a, first + second)
  {
  }

  /**
   * Whatever fails, a DEL only removes rows, and only rows of keys it
   * names: it never adds a key, never changes a value, and keeps every key
   * it does not name.
   */
  lemma {:induction false} DelLoopOnlyRemoves(keys: seq<string>, rows: Rows, faults: seq<Option<string>>, next: nat, count: nat)
    ensures OnlyRemoves(DelLoop(keys, rows, faults, next, count).rows, rows, Elems(keys))
    decreases |keys|
  {
    if keys != [] {
      var s := DelKeyOn(rows, keys[0], FaultAt(faults, next), FaultAt(faults, next + 1));
      assert OnlyRemoves(s.rows, rows, {keys[0]});
      if s.err.None? {
        DelLoopConsAt(keys, rows, faults, next, count, s);
        DelLoopOnlyRemoves(keys[1..], s.rows, faults, next + |s.issued|, count + if s.deleted then 1 else 0);
        OnlyRemovesThen(rows, s.rows, DelLoop(keys, rows, faults, next, count).rows, {keys[0]}, Elems(keys[1..]));
        ElemsCons(keys);
      } else {
        assert keys[0] in Elems(keys);
      }
    }
  }

  /** An error reply of `o` is the fault of the last statement it sent, statement numbers starting at `next`. */
  predicate ErrorFromLast(o: Outcome, faults: seq<Option<string>>, next: nat)
  {
    o.reply.Error? ==> o.issued != [] && FaultAt(faults, next + |o.issued| - 1) == Some(o.reply.msg)
  }

  /**
   * A DEL that fails replies with the error text of the last statement it
   * sent, which is the one that failed.
   */
  lemma {:induction false} DelLoopErrorText(keys: seq<string>, rows: Rows, faults: seq<Option<string>>, next: nat, count: nat)
    ensures ErrorFromLast(DelLoop(keys, rows, faults, next, count), faults, next)
    decreases |keys|
  {
    if keys != [] {
      var s := DelKeyOn(rows, keys[0], FaultAt(faults, next), FaultAt(faults, next + 1));
      if s.err.None? {
        DelLoopErrorText(keys[1..], s.rows, faults, next + |s.issued|, count + if s.deleted then 1 else 0);
        ErrorTextStep(keys, rows, faults, next, count, s);
      } else {
        DelKeyErrorFromLast(keys, rows, faults, next, count);
      }
    }
  }

  /** One step of DelLoopErrorText: from the keys after the first, with its delkey `s`, to all of them. */
  lemma ErrorTextStep(keys: seq<string>, rows: Rows, faults: seq<Option<string>>, next: nat, count: nat, s: DelStep)
    requires keys != []
    requires s == DelKeyOn(rows, keys[0], FaultAt(faults, next), FaultAt(faults, next + 1)) && s.err.None?
    requires ErrorFromLast(DelLoop(keys[1..], s.rows, faults, next + |s.issued|, count + if s.deleted then 1 else 0),
      faults, next + |s.issued|)
    ensures ErrorFromLast(DelLoop(keys, rows, faults, next, count), faults, next)
  {
    DelLoopConsAt(keys, rows, faults, next, count, s);
    ErrorFromPrepend(s.issued, DelLoop(keys[1..], s.rows, faults, next + |s.issued|, count + if s.deleted then 1 else 0), faults, next);
  }

  lemma ErrorFromPrepend(stmts: seq<Stmt>, o: Outcome, faults: seq<Option<string>>, next: nat)
    requires ErrorFromLast(o, faults, next + |stmts|)
    ensures ErrorFromLast(Prepend(stmts, o), faults, next)
  {
  }

  /** A DEL whose first delkey returns an error replies with the fault of the last statement it sent. */
  lemma DelKeyErrorFromLast(keys: seq<string>, rows: Rows, faults: seq<Option<string>>, next: nat, count: nat)
    requires keys != []
    requires DelKeyOn(rows, keys[0], FaultAt(faults, next), FaultAt(faults, next + 1)).err.Some?
    ensures ErrorFromLast(DelLoop(keys, rows, faults, next, count), faults, next)
  {
    DelKeyReports(rows, keys[0], FaultAt(faults, next), FaultAt(faults, next + 1));
  }

  /** The table of `o` is what replaying its statements from `next` makes of `rows`. */
  predicate ReplaysFrom(o: Outcome, rows: Rows, faults: seq<Option<string>>, next: nat)
  {
    o.rows == Replay(rows, o.issued, faults, next)
  }

  /** DEL changes the table only through the statements it sends. */
  lemma {:induction false} DelLoopReplay(keys: seq<string>, rows: Rows, faults: seq<Option<string>>, next: nat, count: nat)
    ensures ReplaysFrom(DelLoop(keys, rows, faults, next, count), rows, faults, next)
    decreases |keys|
  {
    if keys != [] {
      var s := DelKeyOn(rows, keys[0], FaultAt(faults, next), FaultAt(faults, next + 1));
      if s.err.None? {
        DelLoopReplay(keys[1..], s.rows, faults, next + |s.issued|, count + if s.deleted then 1 else 0);
        ReplayStep(keys, rows, faults, next, count, s);
      } else {
        DelKeyReplayFirst(keys, rows, faults, next, count);
      }
    }
  }

  /** One delkey leaves the table as replaying the statements it sent does, numbered from `next`. */
  lemma DelKeyReplayAt(rows: Rows, key: string, faults: seq<Option<string>>, next: nat)
    ensures var s := DelKeyOn(rows, key, FaultAt(faults, next), FaultAt(faults, next + 1));
      s.rows == Replay(rows, s.issued, faults, next)
  {
    var s := DelKeyOn(rows, key, FaultAt(faults, next), FaultAt(faults, next + 1));
    DelKeyReports(rows, key, FaultAt(faults, next), FaultAt(faults, next + 1));
    StepReplay(rows, s.issued, faults, next);
  }

  /** One step of DelLoopReplay: from the keys after the first, with its delkey `s`, to all of them. */
  lemma ReplayStep(keys: seq<string>, rows: Rows, faults: seq<Option<string>>, next: nat, count: nat, s: DelStep)
    requires keys != []
    requires s == DelKeyOn(rows, keys[0], FaultAt(faults, next), FaultAt(faults, next + 1)) && s.err.None?
    requires ReplaysFrom(DelLoop(keys[1..], s.rows, faults, next + |s.issued|, count + if s.deleted then 1 else 0),
      s.rows, faults, next + |s.issued|)
    ensures ReplaysFrom(DelLoop(keys, rows, faults, next, count), rows, faults, next)
  {
    DelKeyReplayAt(rows, keys[0], faults, next);
    DelLoopConsAt(keys, rows, faults, next, count, s);
    ReplaysPrepend(s.issued, DelLoop(keys[1..], s.rows, faults, next + |s.issued|, count + if s.deleted then 1 else 0),
      rows, s.rows, faults, next);
  }

  lemma ReplaysPrepend(stmts: seq<Stmt>, o: Outcome, rows: Rows, mid: Rows, faults: seq<Option<string>>, next: nat)
    requires mid == Replay(rows, stmts, faults, next) && ReplaysFrom(o, mid, faults, next + |stmts|)
    ensures ReplaysFrom(Prepend(stmts, o), rows, faults, next)
  {
    ReplayAppend(rows, stmts, o.issued, faults, next);
  }

  /** A DEL whose first delkey returns an error leaves the table as replaying that delkey's statements does. */
  lemma DelKeyReplayFirst(keys: seq<string>, rows: Rows, faults: seq<Option<string>>, next: nat, count: nat)
    requires keys != []
    requires DelKeyOn(rows, keys[0], FaultAt(faults, next), FaultAt(faults, next + 1)).err.Some?
    ensures ReplaysFrom(DelLoop(keys, rows, faults, next, count), rows, faults, next)
  {
    DelKeyReplayAt(rows, keys[0], faults, next);
  }

  lemma StepReplay(rows: Rows, stmts: seq<Stmt>, faults: seq<Option<string>>, next: nat)
    requires |stmts| <= 2
    ensures Replay(rows, stmts, faults, next) == Replay(rows, stmts, [FaultAt(faults, next), FaultAt(faults, next + 1)], 0)
  {
    var local := [FaultAt(faults, next), FaultAt(faults, next + 1)];
    if stmts != [] {
      var r1 := Run(rows, stmts[0], FaultAt(faults, next));
      assert FaultAt(local, 0) == FaultAt(faults, next);
      if |stmts| == 2 {
        assert FaultAt(local, 1) == FaultAt(faults, next + 1);
        assert stmts[1..][1..] == [];
        assert Replay(r1, stmts[1..], faults, next + 1) == Replay(r1, stmts[1..], local, 1);
      }
    }
  }

  // ----------------------------------------------------------- Dispatch

  /** The handler changes the table only through the statements it sends, each run with its own fault input. */
  lemma DispatchReplay(args: seq<string>, rows: Rows, faults: seq<Option<string>>, tag: string)
    requires |args| >= 1
    ensures var o := Dispatch(args, rows, faults, tag);
      o.rows == Replay(rows, o.issued, faults, 0)
  {
    if Classify(args[0]) == Del && |args| >= 2 {
      DelLoopReplay(args[1..], rows, faults, 0, 0);
    }
  }

  /**
   * Every error reply is either one of the two protocol errors, sent
   * before any statement, or the error text of the last statement sent.
   */
  lemma DispatchErrors(args: seq<string>, rows: Rows, faults: seq<Option<string>>, tag: string)
    requires |args| >= 1
    ensures var o := Dispatch(args, rows, faults, tag);
      o.reply.Error? ==>
        if o.issued == [] then o.reply.msg in {WrongArgs, UnknownCommand}
        else FaultAt(faults, |o.issued| - 1) == Some(o.reply.msg)
  {
    if Classify(args[0]) == Del && |args| >= 2 {
      DelLoopErrorText(args[1..], rows, faults, 0, 0);
    }
  }

  /** An unknown command name is answered "Unknown command", whatever the arguments, and sends nothing. */
  lemma UnknownCommandIsRejected(args: seq<string>, rows: Rows, faults: seq<Option<string>>, tag: string)
    requires |args| >= 1 && forall c :: Lower(args[0]) !in Names(c)
    ensures Dispatch(args, rows, faults, tag) == Outcome(Error(UnknownCommand), rows, [])
  {
    assert Lower(args[0]) !in Names(Classify(args[0]));
  }

  /** Too few arguments for ECHO, GET, DEL or SET: the arity error, and no statement is sent. */
  lemma ArityErrors(args: seq<string>, rows: Rows, faults: seq<Option<string>>, tag: string)
    requires |args| >= 1
    requires var n := Lower(args[0]);
      ((n == "echo" || n == "get" || n == "del") && |args| < 2) || (n == "set" && |args| < 3)
    ensures Dispatch(args, rows, faults, tag) == Outcome(Error(WrongArgs), rows, [])
  {
    var c := Classify(args[0]);
    assert Lower(args[0]) in Names(c);
  }

  /**
   * The arity check in both directions: a request draws the arity error,
   * with no statement sent, exactly when it is shorter than its command's
   * least length.
   */
  lemma ArityErrorExactly(args: seq<string>, rows: Rows, faults: seq<Option<string>>, tag: string)
    requires |args| >= 1
    ensures var o := Dispatch(args, rows, faults, tag);
      (o.reply == Error(WrongArgs) && o.issued == []) <==> |args| < MinArgs(Classify(args[0]))
  {
    var c := Classify(args[0]);
    if |args| >= MinArgs(c) && c == Del {
      var keys := args[1..];
      var s := DelKeyOn(rows, keys[0], FaultAt(faults, 0), FaultAt(faults, 1));
      assert DelLoop(keys, rows, faults, 0, 0).issued[..|s.issued|] == s.issued;
    }
  }

  /** Arguments beyond those a command reads are ignored (DEL reads them all). */
  lemma ExtraArgsIgnored(args: seq<string>, extra: seq<string>, rows: Rows, faults: seq<Option<string>>, tag: string)
    requires |args| >= 1 && |args| >= MinArgs(Classify(args[0])) && Classify(args[0]) != Del
    ensures Dispatch(args + extra, rows, faults, tag) == Dispatch(args, rows, faults, tag)
  {
    var all := args + extra;
    assert all[0] == args[0];
    assert |args| >= 2 ==> all[1] == args[1];
    assert |args| >= 3 ==> all[2] == args[2];
  }

  /**
   * The command name is matched without regard to case: two requests that
   * differ only in the case of the name get the same reply and leave the
   * same table; only a transaction verb is sent as written.
   */
  lemma DispatchIgnoresCase(a: seq<string>, b: seq<string>, rows: Rows, faults: seq<Option<string>>, tag: string)
    requires |a| >= 1 && |b| == |a| && Lower(a[0]) == Lower(b[0]) && a[1..] == b[1..]
    ensures Dispatch(a, rows, faults, tag).reply == Dispatch(b, rows, faults, tag).reply
    ensures Dispatch(a, rows, faults, tag).rows == Dispatch(b, rows, faults, tag).rows
    ensures Classify(a[0]) != Finish ==> Dispatch(a, rows, faults, tag) == Dispatch(b, rows, faults, tag)
  {
    assert Classify(a[0]) == Classify(b[0]);
    assert |a| >= 2 ==> a[1] == a[1..][0] == b[1];
    assert |a| >= 3 ==> a[2] == a[1..][1] == b[2];
  }

  /** PING replies PONG and ECHO replies its argument; neither touches the store. */
  lemma PingAndEcho(args: seq<string>, rows: Rows, faults: seq<Option<string>>, tag: string)
    requires |args| >= 1
    ensures Classify(args[0]) == Ping ==> Dispatch(args, rows, faults, tag) == Outcome(Status(Pong), rows, [])
    ensures Classify(args[0]) == Echo && |args| >= 2 ==> Dispatch(args, rows, faults, tag) == Outcome(Bulk(args[1]), rows, [])
  {
  }

  /** FLUSHDB and FLUSHALL empty the table and reply OK, or reply the error and change nothing. */
  lemma FlushEmpties(args: seq<string>, rows: Rows, faults: seq<Option<string>>, tag: string)
    requires |args| >= 1 && Lower(args[0]) in {"flushdb", "flushall"}
    ensures var o := Dispatch(args, rows, faults, tag);
      match FaultAt(faults, 0)
      case None => o.reply == Status(Wire.Ok) && o.rows == map[]
      case Some(e) => o.reply == Error(e) && o.rows == rows
  {
    assert Lower(args[0]) in Names(Flush);
  }

  /** SET on success replies OK and changes only its key, to its value; on failure it changes nothing. */
  lemma SetUpserts(args: seq<string>, rows: Rows, faults: seq<Option<string>>, tag: string)
    requires |args| >= 3 && Lower(args[0]) == "set"
    ensures var o := Dispatch(args, rows, faults, tag);
      match FaultAt(faults, 0)
      case None =>
        o.reply == Status(Wire.Ok) && args[1] in o.rows && o.rows[args[1]] == args[2] &&
        o.rows.Keys == rows.Keys + {args[1]} &&
        forall k :: k in rows && k != args[1] ==> o.rows[k] == rows[k]
      case Some(e) => o.reply == Error(e) && o.rows == rows
  {
    assert Lower(args[0]) in Names(Set);
  }

  /**
   * GET replies the stored value, a null reply for an absent key, and an
   * error only for a failed lookup; it never changes the table.
   */
  lemma GetReads(args: seq<string>, rows: Rows, faults: seq<Option<string>>, tag: string)
    requires |args| >= 2 && Lower(args[0]) == "get"
    ensures var o := Dispatch(args, rows, faults, tag);
      var f := FaultAt(faults, 0);
      && o.rows == rows
      && (o.reply.Error? <==> f.Some? && f.value != NoRows)
      && (f.None? ==> o.reply == if args[1] in rows then Bulk(rows[args[1]]) else Null)
      && (args[1] !in rows ==> o.reply.Null? || o.reply.Error?)
  {
    assert Lower(args[0]) in Names(Get);
  }

  /**
   * Only a SET of a key can create its row: a key absent before any other
   * request, whatever fails, is still absent after it. So a key that no
   * request has SET reads as null (`GetReads`).
   */
  lemma OnlySetAdds(args: seq<string>, rows: Rows, faults: seq<Option<string>>, tag: string, k: string)
    requires |args| >= 1 && k !in rows && !(Classify(args[0]) == Set && |args| >= 3 && args[1] == k)
    ensures k !in Dispatch(args, rows, faults, tag).rows
  {
    if Classify(args[0]) == Del && |args| >= 2 {
      DelLoopOnlyRemoves(args[1..], rows, faults, 0, 0);
    }
  }

  /** Write then read: after a SET that succeeds, a GET of its key replies its value. */
  lemma ReadAfterWrite(write: seq<string>, read: seq<string>, rows: Rows, faults: seq<Option<string>>, tag: string)
    requires |write| >= 3 && Lower(write[0]) == "set" && FaultAt(faults, 0).None?
    requires |read| >= 2 && Lower(read[0]) == "get" && read[1] == write[1]
    ensures var o := Dispatch(write, rows, faults, tag);
      Dispatch(read, o.rows, faults, tag).reply == Bulk(write[2])
  {
    SetUpserts(write, rows, faults, tag);
    GetReads(read, Dispatch(write, rows, faults, tag).rows, faults, tag);
  }

  /** Upsert overwrites: SET k v1, then SET k v2, then GET k replies v2. */
  lemma UpsertOverwrites(set1: seq<string>, set2: seq<string>, read: seq<string>, rows: Rows, tag: string)
    requires |set1| >= 3 && Lower(set1[0]) == "set"
    requires |set2| >= 3 && Lower(set2[0]) == "set" && set2[1] == set1[1]
    requires |read| >= 2 && Lower(read[0]) == "get" && read[1] == set1[1]
    ensures var o1 := Dispatch(set1, rows, [], tag);
      var o2 := Dispatch(set2, o1.rows, [], tag);
      o2.rows == rows[set1[1] := set2[2]] && Dispatch(read, o2.rows, [], tag).reply == Bulk(set2[2])
  {
    var o1 := Dispatch(set1, rows, [], tag);
    SetUpserts(set1, rows, [], tag);
    SetUpserts(set2, o1.rows, [], tag);
    ReadAfterWrite(set2, read, o1.rows, [], tag);
  }

  /** After a FLUSHDB or FLUSHALL that succeeds, every GET replies null. */
  lemma FlushThenGet(flush: seq<string>, read: seq<string>, rows: Rows, tag: string)
    requires |flush| >= 1 && Lower(flush[0]) in {"flushdb", "flushall"}
    requires |read| >= 2 && Lower(read[0]) == "get"
    ensures Dispatch(read, Dispatch(flush, rows, [], tag).rows, [], tag).reply == Null
  {
    FlushEmpties(flush, rows, [], tag);
    GetReads(read, Dispatch(flush, rows, [], tag).rows, [], tag);
  }

  /** DEL with no failing statement counts each key that is present when its turn comes. */
  lemma DelInTurn(args: seq<string>, rows: Rows, faults: seq<Option<string>>, tag: string)
    requires |args| >= 2 && Lower(args[0]) == "del" && NoFaultsFrom(faults, 0)
    ensures Dispatch(args, rows, faults, tag).reply == Int(CountPresent(args[1..], rows.Keys))
  {
    assert Lower(args[0]) in Names(Del);
    DelLoopCounts(args[1..], rows, faults, 0, 0);
  }

  /**
   * DEL with no failing statement replies the number of distinct keys that
   * were present, and afterwards none of its keys is in the table and every
   * other key is unchanged.
   */
  lemma DelCounts(args: seq<string>, rows: Rows, faults: seq<Option<string>>, tag: string)
    requires |args| >= 2 && Lower(args[0]) == "del" && NoFaultsFrom(faults, 0)
    ensures var o := Dispatch(args, rows, faults, tag);
      && o.reply == Int(|Elems(args[1..]) * rows.Keys|)
      && o.rows == rows - Elems(args[1..])
  {
    assert Lower(args[0]) in Names(Del);
    DelLoopCounts(args[1..], rows, faults, 0, 0);
    CountPresentDistinct(args[1..], rows.Keys);
  }

  /** DEL k replies 1 if k was present and 0 otherwise. */
  lemma DelOne(args: seq<string>, rows: Rows, tag: string)
    requires |args| == 2 && Lower(args[0]) == "del"
    ensures Dispatch(args, rows, [], tag).reply == Int(if args[1] in rows then 1 else 0)
  {
    DelInTurn(args, rows, [], tag);
    assert args[1..] == [args[1]] && args[1..][1..] == [];
  }

  /** DEL k1 k2 of two different keys replies the sum of their separate existence checks; DEL k k counts k once. */
  lemma DelTwo(args: seq<string>, rows: Rows, tag: string)
    requires |args| == 3 && Lower(args[0]) == "del"
    ensures Dispatch(args, rows, [], tag).reply ==
      Int(if args[1] == args[2] then (if args[1] in rows then 1 else 0)
          else (if args[1] in rows then 1 else 0) + (if args[2] in rows then 1 else 0))
  {
    DelInTurn(args, rows, [], tag);
    var keys := args[1..];
    assert keys[1..] == [args[2]] && keys[1..][1..] == [];
    assert CountPresent(keys, rows.Keys) ==
      (if args[1] in rows then 1 else 0) + CountPresent([args[2]], rows.Keys - {args[1]});
  }

  /**
   * A lookup that fails with the NoRows text is no DEL failure: the key
   * reads as absent, is not deleted, and the DEL goes on to the next key.
   */
  lemma DelNoRowsLookup()
    ensures var o := Dispatch(["del", "a", "b"], map["a" := "1"], [Some(NoRows)], "");
      o.reply == Int(0) && o.rows == map["a" := "1"]
  {
    var rows := map["a" := "1"];
    var faults := [Some(NoRows)];
    assert Classify("del") == Del by { assert Lower("del") == "del"; }
    assert ["del", "a", "b"][1..] == ["a", "b"];
    var first := DelKeyOn(rows, "a", Some(NoRows), None);
    assert first == DelStep(false, None, rows, [SelectValue("a")]);
    var second := DelKeyOn(rows, "b", None, None);
    assert second == DelStep(false, None, rows, [SelectValue("b")]);
    assert FaultAt(faults, 0) == Some(NoRows) && FaultAt(faults, 1) == None && FaultAt(faults, 2) == None;
    assert ["a", "b"][1..] == ["b"] && ["b"][1..] == [];
    assert DelLoop(["b"], rows, faults, 1, 0).reply == Int(0);
  }

  /**
   * A DEL that fails replies with an error, with no count, and leaves the
   * table as the same DEL of only the keys before the failing one does.
   */
  lemma DelFailure(args: seq<string>, rows: Rows, faults: seq<Option<string>>, tag: string)
    requires |args| >= 2 && Lower(args[0]) == "del"
    ensures var o := Dispatch(args, rows, faults, tag);
      var j := FailingKey(args[1..], rows, faults, 0);
      var p := DelLoop(args[1..][..j], rows, faults, 0, 0);
      && (o.reply.Int? || o.reply.Error?)
      && (o.reply.Error? <==> j < |args| - 1)
      && p.reply.Int? && o.rows == p.rows && p.issued <= o.issued
  {
    assert Lower(args[0]) in Names(Del);
    DelLoopFailsAt(args[1..], rows, faults, 0, 0);
    DelLoopPrefix(args[1..], rows, faults, 0, 0);
  }

  /**
   * BEGIN, COMMIT, ROLLBACK, END and ABORT send one transaction statement
   * (BEGIN at serializable isolation, the others as the client wrote the
   * verb), reply the store's tag or error, and the adapter itself changes
   * no row.
   */
  lemma TransactionsForward(args: seq<string>, rows: Rows, faults: seq<Option<string>>, tag: string)
    requires |args| >= 1 && Lower(args[0]) in {"begin", "commit", "rollback", "end", "abort"}
    ensures var o := Dispatch(args, rows, faults, tag);
      && o.rows == rows
      && o.issued == [if Lower(args[0]) == "begin" then BeginSerializable else Verbatim(args[0])]
      && o.reply == match FaultAt(faults, 0) case None => Status(tag) case Some(e) => Error(e)
  {
    assert Lower(args[0]) in Names(Begin) || Lower(args[0]) in Names(Finish);
  }
}

