/**
  No transaction is applied twice on one chain: the duplicate check, the expiry
  window and the pruning of expired entries, through pending transactions,
  blocks and popped blocks (_apply_transaction, clear_expired_transactions,
  pop_block, push_block in libraries/chain/database.cpp).
 */
module Dedupe {
  import opened Options

  const MAX_TIME_UNTIL_EXPIRATION: nat := 3600

  /** A transaction is known by its digest, which also fixes when it expires. */
  type Id = nat

  datatype Entry = Entry(id: Id, expiration: nat)

  /** The chain state as far as the duplicate check sees it, and the ids applied so far. */
  datatype State = State(headNum: nat, headTime: nat, entries: seq<Entry>, applied: seq<Id>)

  ghost predicate Ordered(entries: seq<Entry>)
  {
    forall i, j :: 0 <= i < j < |entries| ==> entries[i].expiration <= entries[j].expiration
  }

  ghost predicate NoRepeats(ids: seq<Id>)
  {
    forall i, j :: 0 <= i < j < |ids| ==> ids[i] != ids[j]
  }

  predicate Known(entries: seq<Entry>, id: Id)
  {
    exists e :: e in entries && e.id == id
  }

  /**
    Nothing was applied twice, and the index holds exactly those applied
    transactions that the expiry test would still let through (all of them
    before the first block, when there is no expiry test).
   */
  ghost predicate Good(s: State, expires: Id -> nat)
  {
    && Ordered(s.entries)
    && NoRepeats(s.applied)
    && (forall e :: e in s.entries ==> e.id in s.applied && e.expiration == expires(e.id))
    && (forall id :: id in s.applied ==> (Known(s.entries, id) <==> s.headNum == 0 || s.headTime <= expires(id)))
  }

  /** The checks that come before a transaction runs. */
  ghost predicate Admissible(s: State, id: Id, expiration: nat)
  {
    && !Known(s.entries, id)
    && (s.headNum > 0 ==> s.headTime < expiration <= s.headTime + MAX_TIME_UNTIL_EXPIRATION)
  }

  /** Every admissible transaction is new to the chain, also one that expired during block 1. */
  lemma AdmissibleIsFresh(s: State, expires: Id -> nat, id: Id)
    requires Good(s, expires) && Admissible(s, id, expires(id))
    ensures id !in s.applied
  {
  }

  /** The converse: inside its window a transaction is refused only if it was applied. */
  lemma FreshIsAdmissible(s: State, expires: Id -> nat, id: Id)
    requires Good(s, expires) && id !in s.applied
    requires s.headNum > 0 ==> s.headTime < expires(id) <= s.headTime + MAX_TIME_UNTIL_EXPIRATION
    ensures Admissible(s, id, expires(id))
  {
  }

  /** The entries with one more, behind all that expire no later than it. */
  ghost function Inserted(entries: seq<Entry>, e: Entry): seq<Entry>
  {
    var n := |entries|;
    if n > 0 && entries[n - 1].expiration > e.expiration
      then Inserted(entries[..n - 1], e) + [entries[n - 1]]
      else entries + [e]
  }

  /** Adds an entry where the expiration order wants it. */
  method Insert(entries: seq<Entry>, e: Entry) returns (r: seq<Entry>)
    requires Ordered(entries)
    ensures r == Inserted(entries, e) && Ordered(r)
    ensures forall x :: x in r <==> x == e || x in entries
  {
    var i := |entries|;
    while i > 0 && entries[i - 1].expiration > e.expiration
      invariant 0 <= i <= |entries|
      invariant forall k :: i <= k < |entries| ==> entries[k].expiration > e.expiration
    {
      i := i - 1;
    }
    forall k | 0 <= k < i
      ensures entries[k].expiration <= e.expiration
    {
      assert entries[k].expiration <= entries[i - 1].expiration;
    }
    r := entries[..i] + [e] + entries[i..];
    InsertedAt(entries, i, e);
    InsertedMembers(entries, i, e);
    InsertedOrdered(entries, i, e);
  }

  lemma {:induction false} InsertedAt(entries: seq<Entry>, i: nat, e: Entry)
    requires i <= |entries| && (i > 0 ==> entries[i - 1].expiration <= e.expiration)
    requires forall k :: i <= k < |entries| ==> entries[k].expiration > e.expiration
    ensures Inserted(entries, e) == entries[..i] + [e] + entries[i..]
  {
    var n := |entries|;
    if i < n {
      var front, last := entries[..n - 1], [entries[n - 1]];
      InsertedAt(front, i, e);
      assert Inserted(entries, e) == Inserted(front, e) + last;
      assert entries == front + last;
      hide Inserted;
      assert (front + last)[..i] == front[..i] && (front + last)[i..] == front[i..] + last;
    } else {
      assert entries[..i] == entries && entries[i..] == [];
    }
  }

  lemma InsertedMembers(entries: seq<Entry>, i: nat, e: Entry)
    requires i <= |entries|
    ensures forall x :: x in entries[..i] + [e] + entries[i..] <==> x == e || x in entries
  {
    assert entries == entries[..i] + entries[i..];
    forall x
      ensures x in entries[..i] + [e] + entries[i..] <==> x == e || x in entries
    {
      assert x in entries <==> x in entries[..i] || x in entries[i..];
    }
  }

  lemma InsertedOrdered(entries: seq<Entry>, i: nat, e: Entry)
    requires Ordered(entries) && i <= |entries|
    requires forall k :: 0 <= k < i ==> entries[k].expiration <= e.expiration
    requires forall k :: i <= k < |entries| ==> entries[k].expiration > e.expiration
    ensures Ordered(entries[..i] + [e] + entries[i..])
  {
    var r := entries[..i] + [e] + entries[i..];
    forall a, b | 0 <= a < b < |r|
      ensures r[a].expiration <= r[b].expiration
    {
      assert a != i ==> r[a] == entries[if a < i then a else a - 1];
      assert b != i ==> r[b] == entries[if b < i then b else b - 1];
    }
  }

  /** The entries without those at the front that expire before the head time. */
  ghost function Pruned(entries: seq<Entry>, headTime: nat): seq<Entry>
  {
    if entries != [] && headTime > entries[0].expiration then Pruned(entries[1..], headTime) else entries
  }

  /** clear_expired_transactions: drops entries from the front while the head time is past them. */
  method Prune(entries: seq<Entry>, headTime: nat) returns (r: seq<Entry>)
    requires Ordered(entries)
    ensures r == Pruned(entries, headTime) && Ordered(r)
    ensures forall x :: x in r <==> x in entries && x.expiration >= headTime
  {
    r := entries;
    while r != [] && headTime > r[0].expiration
      invariant Ordered(r) && Pruned(r, headTime) == Pruned(entries, headTime)
      invariant forall x :: x in r ==> x in entries
      invariant forall x :: x in entries && x.expiration >= headTime ==> x in r
    {
      assert r == [r[0]] + r[1..];
      r := r[1..];
    }
    forall x | x in r
      ensures x.expiration >= headTime
    {
      var k :| 0 <= k < |r| && r[k] == x;
      assert r[0].expiration <= r[k].expiration;
    }
  }

  lemma InsertKeepsGood(s: State, t: State, expires: Id -> nat, id: Id)
    requires Good(s, expires) && Admissible(s, id, expires(id))
    requires t.headNum == s.headNum && t.headTime == s.headTime && t.applied == s.applied + [id]
    requires Ordered(t.entries)
    requires forall x :: x in t.entries <==> x == Entry(id, expires(id)) || x in s.entries
    ensures Good(t, expires)
  {
    AdmissibleIsFresh(s, expires, id);
    assert Entry(id, expires(id)) in t.entries;
    forall other | other in t.applied
      ensures Known(t.entries, other) <==> t.headNum == 0 || t.headTime <= expires(other)
    {
      if other != id {
        assert other in s.applied;
        if Known(s.entries, other) {
          var e :| e in s.entries && e.id == other;
          assert e in t.entries;
        }
      }
    }
  }

  lemma PruneKeepsGood(s: State, t: State, expires: Id -> nat)
    requires Good(s, expires) && s.headTime < t.headTime && t.headNum == s.headNum + 1
    requires t.applied == s.applied && Ordered(t.entries)
    requires forall x :: x in t.entries <==> x in s.entries && x.expiration >= t.headTime
    ensures Good(t, expires)
  {
    forall id | id in t.applied
      ensures Known(t.entries, id) <==> t.headTime <= expires(id)
    {
      if t.headTime <= expires(id) {
        var e :| e in s.entries && e.id == id;
        assert e in t.entries;
      }
    }
  }

  lemma GoodOrdered(s: State, expires: Id -> nat)
    requires Good(s, expires)
    ensures Ordered(s.entries)
  {
  }

  /** All the ids of a chain of blocks. */
  ghost function Flat(blocks: seq<seq<Id>>): seq<Id>
  {
    if blocks == [] then [] else Flat(blocks[..|blocks| - 1]) + blocks[|blocks| - 1]
  }

  /** The chain without its last n blocks. */
  ghost function Before(blocks: seq<seq<Id>>, n: nat): seq<seq<Id>>
    requires n <= |blocks|
  {
    blocks[..|blocks| - n]
  }

  lemma BeforeOneMore(blocks: seq<seq<Id>>, ids: seq<Id>, n: nat)
    requires n <= |blocks|
    ensures Before(blocks + [ids], n + 1) == Before(blocks, n)
    ensures Flat(blocks + [ids]) == Flat(blocks) + ids
  {
    assert (blocks + [ids])[..|blocks|] == blocks;
  }

  /** Each undo session restores a good state, that of the chain without the blocks after it. */
  ghost predicate Undoable(undo: seq<State>, blocks: seq<seq<Id>>, expires: Id -> nat)
  {
    && |undo| <= |blocks|
    && forall k :: 0 <= k < |undo| ==> Good(undo[k], expires) && undo[k].applied == Flat(Before(blocks, |undo| - k))
  }

  lemma UndoableBlock(undo: seq<State>, blocks: seq<seq<Id>>, expires: Id -> nat, before: State, ids: seq<Id>)
    requires Undoable(undo, blocks, expires) && Good(before, expires) && before.applied == Flat(blocks)
    ensures Undoable(undo + [before], blocks + [ids], expires)
    ensures Flat(blocks + [ids]) == Flat(blocks) + ids
  {
    hide Good, Flat;
    BeforeOneMore(blocks, ids, 0);
    var u, b := undo + [before], blocks + [ids];
    forall k | 0 <= k < |u|
      ensures Good(u[k], expires) && u[k].applied == Flat(Before(b, |u| - k))
    {
      BeforeOneMore(blocks, ids, |u| - 1 - k);
    }
  }

  lemma UndoablePop(undo: seq<State>, blocks: seq<seq<Id>>, expires: Id -> nat)
    requires Undoable(undo, blocks, expires) && undo != []
    ensures |blocks| > 0 && Undoable(undo[..|undo| - 1], blocks[..|blocks| - 1], expires)
    ensures Good(undo[|undo| - 1], expires) && undo[|undo| - 1].applied == Flat(blocks[..|blocks| - 1])
  {
    hide Good, Flat;
    var n, m := |undo|, |blocks|;
    var u, b := undo[..n - 1], blocks[..m - 1];
    assert blocks == b + [blocks[m - 1]];
    forall k | 0 <= k < n - 1
      ensures Good(u[k], expires) && u[k].applied == Flat(Before(b, n - 1 - k))
    {
      BeforeOneMore(b, blocks[m - 1], n - 1 - k);
    }
    assert Before(blocks, 1) == b;
  }

  lemma UndoableRest(undo: seq<State>, blocks: seq<seq<Id>>, expires: Id -> nat, count: nat)
    requires Undoable(undo, blocks, expires) && count <= |undo|
    ensures Undoable(undo[count..], blocks, expires)
  {
    hide Good, Flat;
    var u := undo[count..];
    forall k | 0 <= k < |u|
      ensures Good(u[k], expires) && u[k].applied == Flat(Before(blocks, |u| - k))
    {
      assert u[k] == undo[count + k];
    }
  }

  /** What is left of a list of transactions when those that cannot be applied are passed over. */
  datatype Kept = Kept(state: State, ids: seq<Id>)

  datatype Step =
    | PushTransaction(id: Id)
    | PushBlock(timestamp: nat, ids: seq<Id>)
    | PopBlock
    | Commit(count: nat)
    | GenerateBlock(when: nat)

  class Chain {
    /** When a transaction expires; whether everything else about it is in order in a given state. */
    const expires: Id -> nat
    const passes: (State, Id) -> bool

    var state: State
    /** The undo sessions of the blocks that can still be popped, oldest first. */
    var undo: seq<State>
    /** The state of the head block while pending transactions are applied on top of it. */
    var session: Option<State>
    var pending: seq<Id>
    var popped: seq<Id>
    /** The transactions of each applied block. */
    var blocks: seq<seq<Id>>

    function Head(): State
      reads this
    {
      if session.Some? then session.value else state
    }

    ghost predicate Valid()
      reads this
    {
      && Good(state, expires) && Good(Head(), expires)
      && Head().applied == Flat(blocks) && Undoable(undo, blocks, expires)
      && (session.Some? ==> state.applied == Flat(blocks) + pending)
      && state.headTime == Head().headTime && state.headNum == Head().headNum
      && (session.None? ==> pending == [])
    }

    constructor (genesisTime: nat, expires: Id -> nat, passes: (State, Id) -> bool)
      ensures Valid() && blocks == [] && pending == [] && state.applied == []
      ensures this.expires == expires && this.passes == passes
    {
      this.expires, this.passes := expires, passes;
      state := State(0, genesisTime, [], []);
      undo, session, pending, popped, blocks := [], None, [], [], [];
    }

    /** The state with one more transaction in it. */
    ghost function After(s: State, id: Id): State
    {
      s.(entries := Inserted(s.entries, Entry(id, expires(id))), applied := s.applied + [id])
    }

    /** Whether a transaction can be applied in a state. */
    ghost predicate Accepts(s: State, id: Id)
    {
      Admissible(s, id, expires(id)) && passes(After(s, id), id)
    }

    /** The state after all the transactions, if each can be applied after those before it. */
    ghost function Played(s: State, ids: seq<Id>): Option<State>
      decreases |ids|
    {
      if ids == [] then Some(s) else
        var id, t := ids[|ids| - 1], Played(s, ids[..|ids| - 1]);
        if t.Some? && Accepts(t.value, id) then Some(After(t.value, id)) else None
    }

    /**
      The transactions of a list that can be applied after those kept before them and expire no
      earlier than a time.
     */
    ghost function Keep(s: State, ids: seq<Id>, when: nat): Kept
      decreases |ids|
    {
      if ids == [] then Kept(s, []) else
        var id, k := ids[|ids| - 1], Keep(s, ids[..|ids| - 1], when);
        if expires(id) >= when && Accepts(k.state, id) then Kept(After(k.state, id), k.ids + [id]) else k
    }

    /** The state after a block of these transactions, if it can be applied. */
    ghost function BlockApplied(s: State, timestamp: nat, ids: seq<Id>): Option<State>
    {
      var t := Played(s, ids);
      if timestamp > s.headTime && t.Some?
        then Some(t.value.(headNum := s.headNum + 1, headTime := timestamp,
          entries := Pruned(t.value.entries, timestamp)))
        else None
    }

    /** A list whose beginning cannot be applied cannot be applied. */
    lemma {:induction false} PlayedFails(s: State, ids: seq<Id>, n: nat)
      requires n <= |ids| && Played(s, ids[..n]).None?
      ensures Played(s, ids).None?
      decreases |ids|
    {
      hide Admissible;
      if n == |ids| {
        assert ids[..n] == ids;
      } else {
        assert ids[..|ids| - 1][..n] == ids[..n];
        PlayedFails(s, ids[..|ids| - 1], n);
      }
    }

    /** Whatever was kept can be applied in a row, with the same result: a block made of it is accepted. */
    lemma {:induction false} KeptPlays(s: State, ids: seq<Id>, when: nat)
      ensures Played(s, Keep(s, ids, when).ids) == Some(Keep(s, ids, when).state)
      decreases |ids|
    {
      hide Admissible;
      if ids != [] {
        var shorter := ids[..|ids| - 1];
        KeptPlays(s, shorter, when);
        var k := Keep(s, shorter, when);
        var id := ids[|ids| - 1];
        assert (k.ids + [id])[..|k.ids|] == k.ids;
      }
    }

    /** Keeping from two lists one after the other is keeping from the joined list. */
    lemma {:induction false} KeepJoins(s: State, first: seq<Id>, second: seq<Id>, when: nat)
      ensures Keep(s, first + second, when) ==
        var a := Keep(s, first, when);
        var b := Keep(a.state, second, when);
        Kept(b.state, a.ids + b.ids)
      decreases |second|
    {
      hide Admissible;
      if second == [] {
        assert first + second == first;
      } else {
        var n := |second|;
        assert (first + second)[..|first + second| - 1] == first + second[..n - 1];
        KeepJoins(s, first, second[..n - 1], when);
      }
    }

    /**
      Kept transactions come from the list, in its order, and one left out could not have been
      applied when its turn came.
     */
    lemma {:induction false} KeptFrom(s: State, ids: seq<Id>, when: nat, i: nat)
      requires i < |ids|
      ensures
        var before := Keep(s, ids[..i], when);
        && before.ids <= Keep(s, ids, when).ids
        && (if expires(ids[i]) >= when && Accepts(before.state, ids[i])
              then before.ids + [ids[i]] <= Keep(s, ids, when).ids
              else Keep(s, ids[..i + 1], when) == before)
      decreases |ids|
    {
      hide Admissible;
      assert ids[..i + 1][..i] == ids[..i];
      if i + 1 == |ids| {
        assert ids[..i + 1] == ids;
      } else {
        var shorter := ids[..|ids| - 1];
        assert shorter[..i] == ids[..i] && shorter[..i + 1] == ids[..i + 1];
        KeptFrom(s, shorter, when, i);
      }
    }

    /** _apply_transaction: on failure the caller throws the state away. */
    method ApplyTransaction(id: Id) returns (ok: bool)
      requires Good(state, expires)
      modifies this`state
      ensures ok <==> Accepts(old(state), id)
      ensures ok ==> state == After(old(state), id) && Good(state, expires) && id !in old(state).applied
    {
      if Known(state.entries, id) {
        return false;
      }
      var expiration := expires(id);
      if state.headNum > 0 {
        if expiration > state.headTime + MAX_TIME_UNTIL_EXPIRATION || state.headTime >= expiration {
          return false;
        }
      }
      var entries := Insert(state.entries, Entry(id, expiration));
      ghost var before := state;
      AdmissibleIsFresh(state, expires, id);
      state := state.(entries := entries, applied := state.applied + [id]);
      InsertKeepsGood(before, state, expires, id);
      ok := passes(state, id);
    }

    /** _push_transaction: applies on top of the pending ones, or leaves everything as it was. */
    method Push(id: Id) returns (ok: bool)
      requires Valid()
      modifies this`state, this`session, this`pending
      ensures Valid() && Head() == old(Head())
      ensures ok <==> Accepts(old(state), id)
      ensures ok ==> state == After(old(state), id) && pending == old(pending) + [id] && id !in old(state).applied
      ensures !ok ==> pending == old(pending) && state == old(state)
    {
      hide Good, Undoable, Admissible;
      if session.None? {
        session := Some(state);
      }
      var before := state;
      ok := ApplyTransaction(id);
      if ok {
        pending := pending + [id];
        assert Flat(blocks) + pending == (Flat(blocks) + old(pending)) + [id];
      } else {
        state := before;
        assert Flat(blocks) + [] == Flat(blocks);
      }
    }

    method ClearPending()
      requires Valid()
      modifies this`state, this`session, this`pending
      ensures Valid() && session == None && pending == [] && state == old(Head()) == Head()
    {
      state, session, pending := Head(), None, [];
    }

    /** Undoes the head block; its transactions wait to be pushed again. */
    method Pop() returns (ok: bool)
      requires Valid()
      modifies this`state, this`session, this`pending, this`undo, this`blocks, this`popped
      ensures Valid() && session == None && pending == []
      ensures ok == (old(undo) != [])
      ensures ok ==> state == old(undo)[|old(undo)| - 1] && blocks == old(blocks)[..|old(blocks)| - 1]
      ensures ok ==> popped == old(blocks)[|old(blocks)| - 1] + old(popped)
      ensures !ok ==> blocks == old(blocks) && popped == old(popped) && state == old(Head())
    {
      hide Good, Flat, Undoable;
      ClearPending();
      if undo == [] {
        return false;
      }
      UndoablePop(undo, blocks, expires);
      var n, m := |undo|, |blocks|;
      popped := blocks[m - 1] + popped;
      state, undo, blocks := undo[n - 1], undo[..n - 1], blocks[..m - 1];
      ok := true;
    }

    /** The transactions of a block, one after the other; on failure the caller throws the state away. */
    method ApplyAll(ids: seq<Id>) returns (ok: bool)
      requires Good(state, expires)
      modifies this`state
      ensures ok <==> Played(old(state), ids).Some?
      ensures ok ==> Good(state, expires) && Played(old(state), ids) == Some(state)
      ensures ok ==> state.applied == old(state).applied + ids
      ensures ok ==> state.headNum == old(state).headNum && state.headTime == old(state).headTime
    {
      hide Good, Accepts, Inserted;
      ghost var before := state;
      for i := 0 to |ids|
        invariant Good(state, expires) && Played(before, ids[..i]) == Some(state)
        invariant state.applied == before.applied + ids[..i]
        invariant state.headNum == before.headNum && state.headTime == before.headTime
      {
        assert ids[..i + 1][..i] == ids[..i];
        ok := ApplyTransaction(ids[i]);
        if !ok {
          PlayedFails(before, ids, i + 1);
          return;
        }
        assert (before.applied + ids[..i]) + [ids[i]] == before.applied + ids[..i + 1];
      }
      assert ids[..|ids|] == ids;
      ok := true;
    }

    /** apply_block on a clean head: all its transactions, then the new head time, then the pruning. */
    method ApplyBlock(timestamp: nat, ids: seq<Id>) returns (ok: bool)
      requires Valid() && session == None
      modifies this`state, this`undo, this`blocks
      ensures Valid()
      ensures ok <==> BlockApplied(old(state), timestamp, ids).Some?
      ensures ok ==>
        Some(state) == BlockApplied(old(state), timestamp, ids) && state.applied == old(state).applied + ids
      ensures ok ==> blocks == old(blocks) + [ids] && undo == old(undo) + [old(state)]
      ensures !ok ==> blocks == old(blocks) && state == old(state) && undo == old(undo)
    {
      hide Good, Flat, Ordered, NoRepeats, Undoable, Pruned, Played;
      var before := state;
      if timestamp <= state.headTime {
        return false;
      }
      ok := ApplyAll(ids);
      if !ok {
        state := before;
        return;
      }
      GoodOrdered(state, expires);
      var entries := Prune(state.entries, timestamp);
      ghost var full := state;
      state := state.(headNum := state.headNum + 1, headTime := timestamp, entries := entries);
      PruneKeepsGood(full, state, expires);
      UndoableBlock(undo, blocks, expires, before, ids);
      undo, blocks := undo + [before], blocks + [ids];
      ok := true;
    }

    /** Pushes again what was popped or pending, where it still fits. */
    method Restore(ids: seq<Id>)
      requires Valid()
      modifies this`state, this`session, this`pending
      ensures Valid() && Head() == old(Head())
      ensures Kept(state, pending) == var k := Keep(old(state), ids, 0); Kept(k.state, old(pending) + k.ids)
    {
      hide Good, Undoable, Flat, After;
      for i := 0 to |ids|
        invariant Valid() && Head() == old(Head())
        invariant Kept(state, pending) == var k := Keep(old(state), ids[..i], 0); Kept(k.state, old(pending) + k.ids)
      {
        assert ids[..i + 1][..i] == ids[..i];
        if !Known(state.entries, ids[i]) {
          var _ := Push(ids[i]);
        }
      }
      assert ids[..|ids|] == ids;
    }

    /**
      push_block where the block extends the head: the pending transactions step
      aside for it, and then those popped and those pending come back, each if it
      can be applied after the block and those before it.
     */
    method ExtendBy(timestamp: nat, ids: seq<Id>) returns (ok: bool)
      requires Valid()
      modifies this
      ensures Valid() && popped == []
      ensures ok <==> BlockApplied(old(Head()), timestamp, ids).Some?
      ensures blocks == if ok then old(blocks) + [ids] else old(blocks)
      ensures undo == if ok then old(undo) + [old(Head())] else old(undo)
      ensures Head() == if ok then BlockApplied(old(Head()), timestamp, ids).value else old(Head())
      ensures Kept(state, pending) == Keep(Head(), old(popped) + old(pending), 0)
    {
      hide Good, Undoable, Flat, BlockApplied, Keep;
      var waiting := pending;
      ClearPending();
      ok := ApplyBlock(timestamp, ids);
      Restore(popped);
      KeepJoins(Head(), popped, waiting, 0);
      popped := [];
      Restore(waiting);
    }

    /** Older undo sessions are given up once their blocks are irreversible. */
    method Forget(count: nat)
      requires Valid()
      modifies this`undo
      ensures Valid() && undo == if count <= |old(undo)| then old(undo)[count..] else old(undo)
    {
      hide Good, Flat, Undoable;
      if count <= |undo| {
        UndoableRest(undo, blocks, expires, count);
        undo := undo[count..];
      }
    }

    /**
      _generate_block: re-applies the pending transactions that will not have
      expired by then, and pushes those that worked as a block. The block is
      always accepted when its time is later than the head's, and no transaction
      in it stays pending.
     */
    method Generate(when: nat) returns (ok: bool)
      requires Valid()
      modifies this
      ensures Valid() && popped == []
      ensures ok <==> when > old(Head()).headTime
      ensures blocks == if ok then old(blocks) + [Keep(old(Head()), old(pending), when).ids] else old(blocks)
      ensures Kept(state, pending) == Keep(Head(), old(popped) + old(pending), 0)
      ensures ok ==> forall id :: id in Keep(old(Head()), old(pending), when).ids ==> id !in pending
    {
      hide Undoable, Good, Flat, BlockApplied, Keep, Played;
      var waiting := pending;
      var chosen := Choose(waiting, when);
      KeptPlays(Head(), waiting, when);
      Appliable(Head(), chosen, when);
      ghost var out := popped;
      ok := ExtendBy(when, chosen);
      KeepJoins(Head(), out, waiting, 0);
      assert out + [] == out;
      Restore(waiting);
      if ok {
        NotPendingAgain(chosen);
      }
    }

    /**
      The pending transactions, applied again to the head one by one; those that work are left
      over, and nothing is pending.
     */
    method Choose(waiting: seq<Id>, when: nat) returns (chosen: seq<Id>)
      requires Valid()
      modifies this`state, this`session, this`pending
      ensures Valid() && Head() == old(Head()) && pending == []
      ensures chosen == Keep(old(Head()), waiting, when).ids
    {
      hide Undoable, Good, Flat, After, Accepts;
      var base := Head();
      state := base;
      chosen := [];
      for i := 0 to |waiting|
        invariant Good(state, expires) && Kept(state, chosen) == Keep(base, waiting[..i], when)
      {
        assert waiting[..i + 1][..i] == waiting[..i];
        if expires(waiting[i]) >= when {
          var before := state;
          var applied := ApplyTransaction(waiting[i]);
          if applied {
            chosen := chosen + [waiting[i]];
          } else {
            state := before;
          }
        }
      }
      assert waiting[..|waiting|] == waiting;
      state, session, pending := base, None, [];
    }

    lemma Appliable(s: State, ids: seq<Id>, when: nat)
      ensures Played(s, ids).Some? ==> (BlockApplied(s, when, ids).Some? <==> when > s.headTime)
    {
      hide Played;
    }

    lemma NotPendingAgain(ids: seq<Id>)
      requires Valid() && |blocks| > 0 && blocks[|blocks| - 1] == ids
      ensures forall id :: id in ids ==> id !in pending
    {
      hide Undoable;
      forall id | id in ids
        ensures id !in pending
      {
        var early := Flat(blocks[..|blocks| - 1]);
        var i :| 0 <= i < |ids| && ids[i] == id;
        forall j | 0 <= j < |pending|
          ensures pending[j] != id
        {
          assert state.applied[|early| + i] == id && state.applied[|early| + |ids| + j] == pending[j];
        }
      }
    }

    /** Over any run of pushes, blocks, pops and commits no id is on the chain twice. */
    method Run(steps: seq<Step>)
      requires Valid()
      modifies this
      ensures Valid() && NoRepeats(Flat(blocks)) && NoRepeats(Flat(blocks) + pending)
    {
      for i := 0 to |steps|
        invariant Valid()
      {
        match steps[i]
        case PushTransaction(id) => var _ := Push(id);
        case PushBlock(timestamp, ids) => var _ := ExtendBy(timestamp, ids);
        case PopBlock => var _ := Pop();
        case Commit(count) => Forget(count);
        case GenerateBlock(when) => var _ := Generate(when);
      }
      assert Flat(blocks) + [] == Flat(blocks);
    }
  }
}
