/**
  What a syncing node remembers about its peers (libraries/net/node.cpp): the
  ids each peer announced, the blocks asked of each, and the blocks on order. Every
  handler is one step; steps of different fibers interleave freely between the
  scheduling of requests and their sending.
 */
module Sync {
  import opened Options
  import Synopsis

  type Id = Synopsis.Id
  type PeerId = nat

  /** A peer connection. asked holds the synopsis of a request for ids under way. */
  datatype Peer = Peer(
    toGet: seq<Id>,
    unfetched: nat,
    requested: set<Id>,
    processing: set<Id>,
    lastSeen: Id,
    asked: Option<seq<Id>>,
    needed: bool,
    inhibited: bool,
    connected: bool,
    needsUs: bool)

  type Peers = map<PeerId, Peer>

  datatype Request = Request(peer: PeerId, ids: seq<Id>)

  /** Every peer's list of announced blocks is a run of consecutive numbers. */
  ghost predicate Contiguous(peers: Peers)
  {
    forall p :: p in peers ==> Synopsis.Consecutive(peers[p].toGet)
  }

  /** No block is asked of two peers at once, and what is asked is on order. */
  ghost predicate Exclusive(peers: Peers, active: set<Id>)
  {
    && (forall p :: p in peers ==> peers[p].requested <= active)
    && (forall p, q, x :: p in peers && q in peers && x in peers[p].requested && x in peers[q].requested ==> p == q)
  }

  /** None of a request's blocks is among these. */
  ghost predicate FreeOf(r: Request, ids: set<Id>)
  {
    forall x :: x in r.ids ==> x !in ids
  }

  ghost predicate Share(r: Request, s: Request, x: Id)
  {
    x in r.ids && x in s.ids
  }

  /** Requests that wait to be sent overlap neither each other nor what is on order. */
  ghost predicate Apart(planned: seq<Request>, active: set<Id>)
  {
    && (forall i :: 0 <= i < |planned| ==> FreeOf(planned[i], active))
    && (forall i, j, x :: 0 <= i < |planned| && 0 <= j < |planned| && Share(planned[i], planned[j], x) ==> i == j)
  }

  // ---- Announced ids ----

  lemma ConsecutivePart(ids: seq<Id>, lo: nat, hi: nat)
    requires Synopsis.Consecutive(ids) && lo <= hi <= |ids|
    ensures Synopsis.Consecutive(ids[lo..hi])
  {
    var part := ids[lo..hi];
    forall i | 0 <= i < |part|
      ensures part[i].num == part[0].num + i
    {
      assert ids[lo + i].num == ids[0].num + (lo + i) && ids[lo].num == ids[0].num + lo;
    }
  }

  /** A list that ends before the first of another run, at the same id, joins it. */
  lemma ConsecutiveJoin(ids: seq<Id>, k: nat, more: seq<Id>)
    requires Synopsis.Consecutive(ids) && Synopsis.Consecutive(more) && k < |ids| && more != [] && ids[k] == more[0]
    ensures Synopsis.Consecutive(ids[..k] + more)
    ensures k > 0 ==> more[0] != ids[k - 1]
  {
    var joined := ids[..k] + more;
    assert ids[k].num == ids[0].num + k;
    forall i | 0 <= i < |joined|
      ensures joined[i].num == joined[0].num + i
    {
      if i < k {
        assert ids[i].num == ids[0].num + i;
      } else {
        assert more[i - k].num == more[0].num + (i - k);
      }
    }
    if k > 0 {
      assert ids[k - 1].num == ids[0].num + (k - 1);
    }
  }

  /** The first k ids of the answer are dropped because we have those blocks, and no more could be. */
  ghost predicate Flushed(answer: seq<Id>, lastSeen: Id, has: set<Id>, firstForOther: bool, merged: seq<Id>, seen: Id,
                          k: nat)
  {
    && k <= |answer| && merged == answer[k..]
    && (forall i :: 0 <= i < k ==> answer[i] in has)
    && seen == (if k == 0 then lastSeen else answer[k - 1])
    && (firstForOther ==> k == 0)
    && (!firstForOther && k < |answer| ==> answer[k] !in has)
  }

  /** The new list meets the old one at its first id; what the old one had from there on is gone. */
  ghost predicate MetAt(toGet: seq<Id>, answer: seq<Id>, merged: seq<Id>, k: nat)
  {
    k < |toGet| && answer != [] && toGet[k] == answer[0] && answer[0] !in toGet[k + 1..]
      && merged == toGet[..k] + answer
  }

  /** How an answer changes the list of announced ids. */
  ghost predicate Merged(toGet: seq<Id>, answer: seq<Id>, lastSeen: Id, has: set<Id>, firstForOther: bool,
                         merged: seq<Id>, seen: Id)
  {
    && (answer == [] ==> merged == toGet && seen == lastSeen)
    && (answer != [] && answer[0] in toGet ==> seen == lastSeen && exists k :: MetAt(toGet, answer, merged, k))
    && (answer != [] && toGet != [] && answer[0] !in toGet ==> merged == answer[1..] && seen == answer[0])
    && (toGet == [] ==> exists k :: Flushed(answer, lastSeen, has, firstForOther, merged, seen, k))
  }

  /** Drops the blocks we have from the front of a first answer. */
  method DropKnown(answer: seq<Id>, lastSeen: Id, has: set<Id>, firstForOther: bool)
    returns (received: seq<Id>, seen: Id)
    requires Synopsis.Consecutive(answer)
    ensures Synopsis.Consecutive(received)
      && exists k :: Flushed(answer, lastSeen, has, firstForOther, received, seen, k)
  {
    received, seen := answer, lastSeen;
    ghost var k := 0;
    if !firstForOther {
      while received != [] && received[0] in has
        invariant 0 <= k <= |answer| && received == answer[k..]
        invariant forall i :: 0 <= i < k ==> answer[i] in has
        invariant seen == if k == 0 then lastSeen else answer[k - 1]
      {
        seen := received[0];
        received := received[1..];
        k := k + 1;
      }
    }
    ConsecutivePart(answer, k, |answer|);
    assert answer[k..|answer|] == answer[k..];
    assert Flushed(answer, lastSeen, has, firstForOther, received, seen, k);
  }

  /**
    The end of on_blockchain_item_ids_inventory_message: drops what we have
    when nothing was announced before, or finds where the new list meets the old one,
    also after the peer switched forks.
   */
  method MergeLists(toGet: seq<Id>, answer: seq<Id>, lastSeen: Id, has: set<Id>, firstForOther: bool)
    returns (merged: seq<Id>, seen: Id)
    requires Synopsis.Consecutive(toGet) && Synopsis.Consecutive(answer)
    ensures Synopsis.Consecutive(merged) && Merged(toGet, answer, lastSeen, has, firstForOther, merged, seen)
  {
    var received := answer;
    seen := lastSeen;
    if received != [] && toGet == [] {
      received, seen := DropKnown(answer, lastSeen, has, firstForOther);
      merged := toGet + received;
      assert merged == received;
    } else if received != [] {
      var left := toGet;
      while left != [] && received[0] != left[|left| - 1]
        invariant left <= toGet
        invariant forall i :: |left| <= i < |toGet| ==> toGet[i] != received[0]
      {
        left := left[..|left| - 1];
      }
      if left == [] {
        seen := received[0];
        received := received[1..];
        ConsecutivePart(answer, 1, |answer|);
        assert answer[1..|answer|] == answer[1..];
        merged := left + received;
        assert merged == answer[1..];
      } else {
        ghost var k := |left| - 1;
        ConsecutiveJoin(toGet, k, received);
        left := left[..|left| - 1];
        assert left == toGet[..k];
        assert left != [] ==> received[0] != left[|left| - 1];
        merged := left + received;
        assert MetAt(toGet, answer, merged, k);
      }
    } else {
      merged := toGet;
      assert toGet == [] ==> Flushed(answer, lastSeen, has, firstForOther, merged, seen, 0);
    }
  }

  // ---- Requests ----

  /** Changing one peer keeps the orders exclusive when it asks for nothing new. */
  lemma KeepsExclusive(peers: Peers, active: set<Id>, p: PeerId, after: Peer)
    requires Exclusive(peers, active) && p in peers && after.requested <= peers[p].requested
    ensures Exclusive(peers[p := after], active)
  {
  }

  /** What an acceptable answer makes of a peer. */
  ghost predicate Heard(before: Peer, after: Peer, answer: seq<Id>, remaining: nat, has: set<Id>, firstForOther: bool,
                        plausible: bool, next: Option<seq<Id>>)
  {
    if UpToDate(before, answer, remaining, has) then after == before.(asked := None, needed := false)
    else
      && Merged(before.toGet, answer, before.lastSeen, has, firstForOther, after.toGet, after.lastSeen)
      && after == before.(toGet := after.toGet, lastSeen := after.lastSeen, unfetched := remaining,
                          connected := before.connected && plausible, asked := next)
  }

  /** Takes in an acceptable answer: the peer is up to date, or its list grows. */
  method TakeAnswer(peer: Peer, answer: seq<Id>, remaining: nat, has: set<Id>, firstForOther: bool, plausible: bool,
                    next: Option<seq<Id>>) returns (after: Peer)
    requires Synopsis.Consecutive(peer.toGet) && Synopsis.Consecutive(answer)
    ensures Synopsis.Consecutive(after.toGet) && after.requested == peer.requested
    ensures Heard(peer, after, answer, remaining, has, firstForOther, plausible, next)
  {
    hide Merged, Synopsis.Consecutive;
    after := peer.(asked := None);
    if remaining == 0 && (answer == [] || (|answer| == 1 && answer[0] in has))
       && after.toGet == [] && after.unfetched == 0 {
      return after.(needed := false);
    }
    var merged, seen := MergeLists(peer.toGet, answer, peer.lastSeen, has, firstForOther);
    after := after.(toGet := merged, unfetched := remaining, lastSeen := seen, connected := peer.connected
      && plausible, asked := next);
  }

  lemma AcceptableRun(synopsis: seq<Id>, answer: seq<Id>)
    requires Synopsis.Acceptable(synopsis, answer)
    ensures Synopsis.Consecutive(answer)
  {
  }

  lemma ListOf(peers: Peers, p: PeerId)
    requires Contiguous(peers) && p in peers
    ensures Synopsis.Consecutive(peers[p].toGet)
  {
  }

  lemma KeepsContiguous(peers: Peers, p: PeerId, after: Peer)
    requires Contiguous(peers) && Synopsis.Consecutive(after.toGet)
    ensures Contiguous(peers[p := after])
  {
  }

  /** A block that arrives, or that its peer takes with it, was asked of no other peer. */
  lemma SettleExclusive(peers: Peers, active: set<Id>, p: PeerId, after: Peer, gone: set<Id>)
    requires Exclusive(peers, active) && p in peers && gone <= peers[p].requested
    requires after.requested == peers[p].requested - gone
    ensures Exclusive(peers[p := after], active - gone)
  {
    var next := peers[p := after];
    forall q | q in next
      ensures next[q].requested <= active - gone
    {
      if q != p {
        forall x | x in next[q].requested
          ensures x in active - gone
        {
          assert x in peers[q].requested && x !in peers[p].requested;
        }
      }
    }
    forall a, b, x | a in next && b in next && x in next[a].requested && x in next[b].requested
      ensures a == b
    {
      assert x in peers[a].requested && x in peers[b].requested;
    }
  }

  lemma CloseExclusive(peers: Peers, active: set<Id>, p: PeerId)
    requires Exclusive(peers, active) && p in peers
    ensures Exclusive(peers - {p}, active - peers[p].requested)
  {
    var next := peers - {p};
    forall q | q in next
      ensures next[q].requested <= active - peers[p].requested
    {
      forall x | x in next[q].requested
        ensures x in active - peers[p].requested
      {
        assert x in peers[q].requested;
      }
    }
    forall a, b, x | a in next && b in next && x in next[a].requested && x in next[b].requested
      ensures a == b
    {
      assert x in peers[a].requested && x in peers[b].requested;
    }
  }

  /** Sending a planned request: its blocks are on order nowhere else. */
  lemma SendExclusive(peers: Peers, active: set<Id>, planned: seq<Request>, p: PeerId, ids: set<Id>, after: Peer)
    requires Exclusive(peers, active) && Apart(planned, active) && planned != []
    requires ids == set x | x in planned[0].ids
    requires p in peers && after.requested == peers[p].requested + ids
    ensures Exclusive(peers[p := after], active + ids)
  {
    var next := peers[p := after];
    forall a, b, x | a in next && b in next && x in next[a].requested && x in next[b].requested
      ensures a == b
    {
      if x in ids {
        assert FreeOf(planned[0], active);
        assert forall q :: q in peers ==> x !in peers[q].requested;
      } else {
        assert x in peers[a].requested && x in peers[b].requested;
      }
    }
  }

  lemma SendApart(planned: seq<Request>, active: set<Id>, ids: set<Id>)
    requires Apart(planned, active) && planned != [] && ids == set x | x in planned[0].ids
    ensures Apart(planned[1..], active + ids)
  {
    var rest := planned[1..];
    forall i | 0 <= i < |rest|
      ensures FreeOf(rest[i], active + ids)
    {
      assert FreeOf(planned[i + 1], active);
      forall x | x in rest[i].ids
        ensures x !in active + ids
      {
        assert !Share(planned[0], planned[i + 1], x);
      }
    }
    forall i, j, x | 0 <= i < |rest| && 0 <= j < |rest| && Share(rest[i], rest[j], x)
      ensures i == j
    {
      assert Share(planned[i + 1], planned[j + 1], x);
    }
  }

  lemma FewerApart(planned: seq<Request>, active: set<Id>, fewer: set<Id>)
    requires Apart(planned, active) && fewer <= active
    ensures Apart(planned, fewer)
  {
    forall i | 0 <= i < |planned|
      ensures FreeOf(planned[i], fewer)
    {
      assert FreeOf(planned[i], active);
    }
  }

  /** On order, asked of nobody that is left, and not about to be asked for. */
  ghost predicate Stranded(peers: Peers, active: set<Id>, planned: seq<Request>, x: Id)
  {
    x in active && !AskedOf(peers, x) && !Taken(planned, x)
  }

  ghost predicate AskedOf(peers: Peers, x: Id)
  {
    exists p :: p in peers && x in peers[p].requested
  }

  lemma SameAsked(peers: Peers, after: Peers)
    requires after.Keys == peers.Keys && forall p :: p in peers ==> after[p].requested == peers[p].requested
    ensures forall x :: AskedOf(after, x) <==> AskedOf(peers, x)
  {
    forall x, p | p in peers && x in peers[p].requested
      ensures AskedOf(after, x)
    {
      assert x in after[p].requested;
    }
    forall x, p | p in after && x in after[p].requested
      ensures AskedOf(peers, x)
    {
      assert x in peers[p].requested;
    }
  }

  lemma AddedAsked(peers: Peers, p: PeerId, peer: Peer)
    requires p !in peers && peer.requested == {}
    ensures forall x :: AskedOf(peers[p := peer], x) <==> AskedOf(peers, x)
  {
    forall x, q | q in peers && x in peers[q].requested
      ensures AskedOf(peers[p := peer], x)
    {
      assert x in peers[p := peer][q].requested;
    }
  }

  /** One block less is asked of its peer, and so of anybody. */
  lemma DroppedAsked(peers: Peers, active: set<Id>, p: PeerId, after: Peer, id: Id)
    requires Exclusive(peers, active) && p in peers && id in peers[p].requested
    requires after.requested == peers[p].requested - {id}
    ensures forall x :: AskedOf(peers[p := after], x) <==> AskedOf(peers, x) && x != id
    ensures AskedOf(peers, id) && id in active
  {
    var next := peers[p := after];
    forall x, q | q in peers && x in peers[q].requested && x != id
      ensures AskedOf(next, x)
    {
      assert x in next[q].requested;
    }
    forall x, q | q in next && x in next[q].requested
      ensures AskedOf(peers, x) && x != id
    {
      assert x in peers[q].requested;
    }
  }

  lemma ClosedAsked(peers: Peers, active: set<Id>, p: PeerId)
    requires Exclusive(peers, active) && p in peers
    ensures forall x :: AskedOf(peers - {p}, x) <==> AskedOf(peers, x) && x !in peers[p].requested
    ensures forall x :: x in peers[p].requested ==> AskedOf(peers, x)
  {
    var next := peers - {p};
    forall x, q | q in peers && x in peers[q].requested && x !in peers[p].requested
      ensures AskedOf(next, x)
    {
      assert x in next[q].requested;
    }
    forall x, q | q in next && x in next[q].requested
      ensures AskedOf(peers, x) && x !in peers[p].requested
    {
      assert x in peers[q].requested;
    }
  }

  /** Sending asks for what was planned, unless the peer has gone. */
  lemma SentAsked(peers: Peers, active: set<Id>, planned: seq<Request>, after: Peers)
    requires Exclusive(peers, active) && Apart(planned, active) && planned != []
    requires var p, ids := planned[0].peer, set x | x in planned[0].ids;
      after == if p in peers then peers[p := peers[p].(requested := peers[p].requested + ids)] else peers
    ensures forall x :: AskedOf(after, x) <==> AskedOf(peers, x) || (planned[0].peer in peers && x in planned[0].ids)
    ensures forall x :: Taken(planned, x) <==> x in planned[0].ids || Taken(planned[1..], x)
    ensures forall x :: x in planned[0].ids ==> x !in active && !AskedOf(peers, x) && !Taken(planned[1..], x)
  {
    var p, rest := planned[0].peer, planned[1..];
    forall x, q | q in peers && x in peers[q].requested
      ensures AskedOf(after, x)
    {
      assert x in after[q].requested;
    }
    if p in peers {
      assert forall x :: x in planned[0].ids ==> x in after[p].requested;
    }
    forall x, i | 0 <= i < |rest| && x in rest[i].ids
      ensures Taken(planned, x) && x !in planned[0].ids
    {
      assert planned[i + 1] == rest[i];
      assert x in planned[0].ids ==> Share(planned[0], planned[i + 1], x);
    }
    forall x | Taken(planned, x) && x !in planned[0].ids
      ensures Taken(rest, x)
    {
      var i :| 0 <= i < |planned| && x in planned[i].ids;
      assert rest[i - 1] == planned[i];
    }
    assert FreeOf(planned[0], active);
  }

  lemma NothingTaken()
    ensures forall x :: !Taken([], x)
  {
  }

  /** What was just planned is not on order. */
  lemma PlannedFree(peers: Peers, active: set<Id>, received: set<Id>, planned: seq<Request>)
    requires forall i :: 0 <= i < |planned| ==> Wanted(peers, active, received, planned[i])
    ensures forall x :: Taken(planned, x) ==> x !in active
  {
    forall x | Taken(planned, x)
      ensures x !in active
    {
      var i :| 0 <= i < |planned| && x in planned[i].ids;
      assert Wanted(peers, active, received, planned[i]);
    }
  }

  ghost predicate Expected(planned: seq<Request>, p: PeerId)
  {
    exists r :: r in planned && r.peer == p
  }

  /** The step leaves the block with nobody to deliver it. */
  ghost predicate Strands(step: Step, peers: Peers, planned: seq<Request>, x: Id)
  {
    match step
    case NotAvailable(p, id) => x == id && p in peers && x in peers[p].requested
    case Send => planned != [] && planned[0].peer !in peers && x in planned[0].ids
    case _ => false
  }

  datatype Step =
    | NewPeer(peer: PeerId, needsUs: bool)
    | StartSync(peer: PeerId, synopsis: seq<Id>)
    | Inventory(peer: PeerId, answer: seq<Id>, remaining: nat, has: set<Id>, plausible: bool, next: Option<seq<Id>>)
    | Schedule(limit: nat, busy: set<PeerId>)
    | Send
    | BlockArrives(peer: PeerId, id: Id)
    | NotAvailable(peer: PeerId, id: Id)
    | Backlog(id: Id)
    | Processed(id: Id, accepted: bool, tooOld: bool)
    | Disconnect(peer: PeerId)
    | Closed(peer: PeerId)

  class Node {
    var peers: Peers
    /** Blocks on order. */
    var active: set<Id>
    /** Requests decided on in the current round and not yet sent. */
    var planned: seq<Request>
    /** Blocks that arrived and wait for their turn. */
    var received: set<Id>
    var recentlyAccepted: set<Id>

    ghost predicate Valid()
      reads this
    {
      Contiguous(peers) && Exclusive(peers, active) && Apart(planned, active)
    }

    constructor ()
      ensures Valid() && peers == map[] && active == {} && planned == []
    {
      peers, active, planned, received, recentlyAccepted := map[], {}, [], {}, {};
    }

    /** Any change to one peer that asks for nothing and keeps its list a run. */
    method Update(p: PeerId, after: Peer)
      requires Valid() && p in peers && after.requested <= peers[p].requested && Synopsis.Consecutive(after.toGet)
      modifies this`peers
      ensures Valid() && peers == old(peers)[p := after]
    {
      KeepsExclusive(peers, active, p, after);
      KeepsContiguous(peers, p, after);
      hide Contiguous, Exclusive, Apart;
      peers := peers[p := after];
    }

    /** A new connection is none that was there before, and so none that a planned request is for. */
    method AddPeer(p: PeerId, needsUs: bool)
      requires Valid()
      modifies this`peers
      ensures Valid()
      ensures peers == if p in old(peers) || Expected(planned, p) then old(peers)
        else old(peers)[p := Peer([], 0, {}, {}, Synopsis.ZERO, None, false, false, true, needsUs)]
    {
      if p !in peers && !(exists r :: r in planned && r.peer == p) {
        peers := peers[p := Peer([], 0, {}, {}, Synopsis.ZERO, None, false, false, true, needsUs)];
      }
    }

    /** start_synchronizing_with_peer: forgets what the peer announced and asks afresh. */
    method StartSynchronizing(p: PeerId, synopsis: seq<Id>)
      requires Valid()
      modifies this`peers
      ensures Valid()
      ensures peers.Keys == old(peers).Keys
      ensures forall q :: q in peers ==>
        peers[q].requested == old(peers)[q].requested && (q != p ==> peers[q] == old(peers)[q])
      ensures p in peers ==> peers[p] == old(peers)[p].(toGet := [], unfetched := 0, needed := true,
        lastSeen := Synopsis.ZERO, inhibited := false, asked := Some(synopsis))
    {
      if p in peers {
        Update(p, peers[p].(toGet := [], unfetched := 0, needed := true, lastSeen := Synopsis.ZERO,
                            inhibited := false, asked := Some(synopsis)));
      }
    }

    /** Whether the answer starts where another connected peer's list does. */
    method OpensOther(p: PeerId, answer: seq<Id>) returns (yes: bool)
      ensures yes == FirstForOther(peers, p, answer)
    {
      yes := answer != [] && exists q ::
        q in peers && q != p && peers[q].connected && peers[q].toGet != [] && peers[q].toGet[0] == answer[0];
    }

    /** on_blockchain_item_ids_inventory_message. */
    method OnInventory(p: PeerId, answer: seq<Id>, remaining: nat, has: set<Id>, plausible: bool, next: Option<seq<Id>>)
      requires Valid()
      modifies this`peers
      ensures Valid()
      ensures peers.Keys == old(peers).Keys
      ensures forall q :: q in peers ==>
        peers[q].requested == old(peers)[q].requested && (q != p ==> peers[q] == old(peers)[q])
      ensures p in peers && old(peers)[p].asked.None? ==> peers[p] == old(peers)[p]
      ensures p in peers && old(peers)[p].asked.Some? && !Synopsis.Acceptable(old(peers)[p].asked.value, answer) ==>
        peers[p] == old(peers)[p].(connected := false)
      ensures p in peers && old(peers)[p].asked.Some? && Synopsis.Acceptable(old(peers)[p].asked.value, answer) ==>
        Heard(old(peers)[p], peers[p], answer, remaining, has, FirstForOther(old(peers), p, answer), plausible, next)
    {
      hide Exclusive, Apart, Heard, Synopsis.Acceptable, FirstForOther;
      if p !in peers || peers[p].asked.None? {
        return;
      }
      ListOf(peers, p);
      hide Contiguous;
      var peer := peers[p];
      var fine := Synopsis.CheckAnswer(peer.asked.value, answer);
      if !fine {
        Update(p, peer.(connected := false));
        return;
      }
      AcceptableRun(peer.asked.value, answer);
      hide Synopsis.Consecutive;
      var firstForOther := OpensOther(p, answer);
      peer := TakeAnswer(peer, answer, remaining, has, firstForOther, plausible, next);
      Update(p, peer);
    }

    /** The part of fetch_sync_items_loop that decides on requests without being interrupted. */
    method ScheduleRequests(limit: nat, busy: set<PeerId>)
      requires Valid()
      modifies this`planned
      ensures Valid()
      ensures old(planned) != [] ==> planned == old(planned)
      ensures old(planned) == [] ==> forall i :: 0 <= i < |planned| ==> Wanted(peers, active, received, planned[i])
      ensures old(planned) == [] ==>
        forall p, x :: p in peers && Idle(peers[p]) && p !in busy && Missing(peers[p], active, received, x) ==>
        Taken(planned, x) || Full(planned, p, limit)
    {
      if planned != [] {
        return;
      }
      var rest := peers.Keys;
      var plan: seq<Request> := [];
      var chosen: set<Id> := {};
      while rest != {}
        invariant rest <= peers.Keys
        invariant Planning(peers, active, received, plan, chosen)
        invariant forall p :: p in peers && p !in rest && Idle(peers[p]) && p !in busy ==>
          Served(peers[p], p, active, received, plan, limit)
        decreases rest
      {
        var p :| p in rest;
        rest := rest - {p};
        var peer := peers[p];
        if peer.connected && peer.needed && peer.requested == {} && peer.asked.None? && !peer.inhibited
           && p !in busy {
          var ids := ChooseFrom(peer.toGet, chosen, limit);
          ghost var before := plan;
          if ids != [] {
            PlanOneMore(peers, active, received, plan, chosen, p, ids);
            plan := plan + [Request(p, ids)];
            chosen := chosen + (set x | x in ids);
          }
          ServedNow(peers, active, received, before, plan, chosen, p, ids, limit);
        }
      }
      PlanApart(peers, active, received, plan, chosen);
      planned := plan;
    }

    /** The first ids of a peer's list that nobody has, nobody was asked for, and nobody is about to be asked for. */
    method ChooseFrom(toGet: seq<Id>, chosen: set<Id>, limit: nat) returns (ids: seq<Id>)
      ensures forall x :: x in ids ==> x in toGet && x !in received && x !in chosen && x !in active
      ensures
        || (ids != [] && |ids| >= limit)
        || (forall x :: x in toGet && x !in received && x !in chosen && x !in active ==> x in ids)
    {
      ids := [];
      for i := 0 to |toGet|
        invariant forall x :: x in ids ==> x in toGet && x !in received && x !in chosen && x !in active
        invariant forall k :: 0 <= k < i && toGet[k] !in received && toGet[k] !in chosen && toGet[k] !in active ==>
          toGet[k] in ids
      {
        var id := toGet[i];
        if id !in received && id !in chosen && id !in ids && id !in active {
          ids := ids + [id];
          if |ids| >= limit {
            break;
          }
        }
      }
    }

    /** request_sync_items_from_peer for the next planned request; its peer may have gone meanwhile. */
    method SendNext()
      requires Valid()
      modifies this`peers, this`active, this`planned
      ensures Valid()
      ensures old(planned) == [] ==> peers == old(peers) && active == old(active) && planned == []
      ensures old(planned) != [] ==> planned == old(planned)[1..]
      ensures old(planned) != [] ==> active == old(active) + (set x | x in old(planned)[0].ids)
      ensures old(planned) != [] && old(planned)[0].peer in old(peers) ==>
        peers == old(peers)[old(planned)[0].peer :=
          old(peers)[old(planned)[0].peer].(requested := old(peers)[old(planned)[0].peer].requested
            + (set x | x in old(planned)[0].ids))]
      ensures old(planned) != [] && old(planned)[0].peer !in old(peers) ==> peers == old(peers)
    {
      if planned == [] {
        return;
      }
      var p := planned[0].peer;
      var ids := set x | x in planned[0].ids;
      SendApart(planned, active, ids);
      if p in peers {
        var after := peers[p].(requested := peers[p].requested + ids);
        SendExclusive(peers, active, planned, p, ids, after);
        KeepsContiguous(peers, p, after);
        hide Contiguous, Exclusive, Apart;
        peers, active, planned := peers[p := after], active + ids, planned[1..];
      } else {
        peers, active, planned := peers, active + ids, planned[1..];
      }
    }

    /** process_block_message: a block is taken from the peer it was asked of. */
    method OnBlock(p: PeerId, id: Id) returns (taken: bool)
      requires Valid()
      modifies this`peers, this`active, this`received
      ensures Valid()
      ensures taken == (p in old(peers) && id in old(peers)[p].requested)
      ensures taken ==> active == old(active) - {id} && received == old(received) + {id}
      ensures taken ==>
        peers == old(peers)[p := old(peers)[p].(requested := old(peers)[p].requested - {id})]
      ensures taken ==> forall q :: q in peers ==> id !in peers[q].requested
      ensures !taken ==> peers == old(peers) && active == old(active) && received == old(received)
    {
      if p !in peers || id !in peers[p].requested {
        return false;
      }
      var after := peers[p].(requested := peers[p].requested - {id});
      SettleExclusive(peers, active, p, after, {id});
      KeepsContiguous(peers, p, after);
      FewerApart(planned, active, active - {id});
      peers, active, received := peers[p := after], active - {id}, received + {id};
      taken := true;
    }

    /** on_item_not_available_message: the peer gives the block up, but it stays on order. */
    method OnNotAvailable(p: PeerId, id: Id) returns (given: bool)
      requires Valid()
      modifies this`peers
      ensures Valid()
      ensures given == (p in old(peers) && id in old(peers)[p].requested)
      ensures given ==> Stranded(peers, active, planned, id)
      ensures !given ==> peers == old(peers)
      ensures given ==> peers == old(peers)[p := old(peers)[p].(requested := old(peers)[p].requested - {id},
        inhibited := old(peers)[p].inhibited || old(peers)[p].needsUs,
        connected := old(peers)[p].connected && old(peers)[p].needsUs)]
    {
      if p !in peers || id !in peers[p].requested {
        return false;
      }
      var peer := peers[p].(requested := peers[p].requested - {id});
      if peer.needsUs {
        peer := peer.(inhibited := true);
      } else {
        peer := peer.(connected := false);
      }
      Update(p, peer);
      given := true;
    }

    /** One block of process_backlog_of_sync_blocks: it leaves the front of every list it heads. */
    method ProcessBacklog(id: Id) returns (first: bool)
      requires Valid()
      modifies this`peers, this`received
      ensures Valid() && peers.Keys == old(peers).Keys
      ensures forall q :: q in peers ==>
        peers[q] == if id in old(received) then Popped(old(peers)[q], id, id in recentlyAccepted) else old(peers)[q]
      ensures forall q :: q in peers ==> peers[q].requested == old(peers)[q].requested
      ensures first <==> id in old(received) && exists q :: q in peers && Heads(old(peers)[q], id)
      ensures received == if first && id !in recentlyAccepted then old(received) - {id} else old(received)
    {
      if id !in received {
        return false;
      }
      first := HeadsSome(peers, id);
      var done := id in recentlyAccepted;
      AfterPopping(peers, active, id, done);
      PoppedSame();
      hide *;
      peers := PopAll(peers, id, done);
      if first && !done {
        received := received - {id};
      }
    }

    /** send_sync_block_to_node_delegate: the client has dealt with a block. */
    method OnProcessed(id: Id, accepted: bool, tooOld: bool)
      requires Valid()
      modifies this`peers, this`recentlyAccepted
      ensures Valid() && peers.Keys == old(peers).Keys
      ensures forall q :: q in peers ==>
        peers[q].requested == old(peers)[q].requested && peers[q].toGet == old(peers)[q].toGet
      ensures accepted ==> forall q :: q in peers ==> id !in peers[q].processing || !peers[q].connected
      ensures forall q :: q in peers ==> peers[q] == Dealt(old(peers)[q], id, accepted, tooOld)
      ensures recentlyAccepted == old(recentlyAccepted) + (if accepted then {id} else {})
    {
      if accepted {
        recentlyAccepted := recentlyAccepted + {id};
      }
      AfterDealing(peers, active, id, accepted, tooOld);
      DealtSame();
      hide Contiguous, Exclusive, Apart, Dealt;
      peers := DealAll(peers, id, accepted, tooOld);
    }

    /** disconnect_from_peer: the peer moves to the closing list. */
    method Hangup(p: PeerId)
      requires Valid()
      modifies this`peers
      ensures Valid()
      ensures peers == if p in old(peers) then old(peers)[p := old(peers)[p].(connected := false)] else old(peers)
    {
      if p in peers {
        Update(p, peers[p].(connected := false));
      }
    }

    /** on_connection_closed: what was asked of the peer is no longer on order. */
    method OnClosed(p: PeerId)
      requires Valid()
      modifies this`peers, this`active
      ensures Valid()
      ensures p in old(peers) ==> peers == old(peers) - {p} && active == old(active) - old(peers)[p].requested
      ensures p !in old(peers) ==> peers == old(peers) && active == old(active)
    {
      if p in peers {
        CloseExclusive(peers, active, p);
        FewerApart(planned, active, active - peers[p].requested);
        peers, active := peers - {p}, active - peers[p].requested;
      }
    }

    /**
      One step of any kind. A stranded block stays stranded; a block becomes so
      exactly when its peer gives it up, or when it is asked of a peer that has gone.
     */
    method Take(step: Step)
      requires Valid()
      modifies this
      ensures Valid()
      ensures forall x ::
        Stranded(peers, active, planned, x)
        <==> Stranded(old(peers), old(active), old(planned), x) || Strands(step, old(peers), old(planned), x)
    {
      hide Contiguous, Apart, Exclusive, Heard, Synopsis.Acceptable, AskedOf, Taken, Wanted, Idle, Missing;
      ghost var was, ordered, plan := peers, active, planned;
      match step {
        case NewPeer(p, needsUs) =>
          AddPeer(p, needsUs);
          if peers != was {
            AddedAsked(was, p, peers[p]);
          }
        case StartSync(p, synopsis) =>
          StartSynchronizing(p, synopsis);
          SameAsked(was, peers);
        case Inventory(p, answer, remaining, has, plausible, next) =>
          OnInventory(p, answer, remaining, has, plausible, next);
          SameAsked(was, peers);
        case Schedule(limit, busy) =>
          ScheduleRequests(limit, busy);
          if plan == [] {
            NothingTaken();
            PlannedFree(peers, active, received, planned);
          }
        case Send =>
          SendNext();
          if plan != [] {
            SentAsked(was, ordered, plan, peers);
          }
        case BlockArrives(p, id) =>
          var taken := OnBlock(p, id);
          if taken {
            DroppedAsked(was, ordered, p, peers[p], id);
          }
        case NotAvailable(p, id) =>
          var given := OnNotAvailable(p, id);
          if given {
            DroppedAsked(was, ordered, p, peers[p], id);
          }
        case Backlog(id) =>
          var _ := ProcessBacklog(id);
          SameAsked(was, peers);
        case Processed(id, accepted, tooOld) =>
          OnProcessed(id, accepted, tooOld);
          SameAsked(was, peers);
        case Disconnect(p) =>
          Hangup(p);
          SameAsked(was, peers);
        case Closed(p) =>
          OnClosed(p);
          if p in was {
            ClosedAsked(was, ordered, p);
          }
      }
    }

    /** Under every interleaving of steps. */
    method Run(steps: seq<Step>)
      requires Valid()
      modifies this
      ensures Valid()
      ensures forall x :: Stranded(old(peers), old(active), old(planned), x) ==> Stranded(peers, active, planned, x)
    {
      for i := 0 to |steps|
        invariant Valid()
        invariant forall x :: Stranded(old(peers), old(active), old(planned), x) ==> Stranded(peers, active, planned, x)
      {
        hide Contiguous, Exclusive, Apart, Stranded;
        Take(steps[i]);
      }
    }
  }

  /** The peer has nothing after what we asked from, and we have nothing left to get from it. */
  ghost predicate UpToDate(peer: Peer, answer: seq<Id>, remaining: nat, has: set<Id>)
  {
    remaining == 0 && (answer == [] || (|answer| == 1 && answer[0] in has)) && peer.toGet == [] && peer.unfetched == 0
  }

  /** The answer starts where another connected peer's list does. */
  ghost predicate FirstForOther(peers: Peers, p: PeerId, answer: seq<Id>)
  {
    answer != []
    && exists q ::
         q in peers && q != p && peers[q].connected && peers[q].toGet != [] && peers[q].toGet[0] == answer[0]
  }

  /** The block is next on this peer's list. */
  ghost predicate Heads(peer: Peer, id: Id)
  {
    peer.connected && peer.toGet != [] && peer.toGet[0] == id
  }

  /** A peer after the backlog took up a block; done says that the client had it already. */
  ghost function Popped(peer: Peer, id: Id, done: bool): Peer
  {
    var popped := if Heads(peer, id)
      then peer.(toGet := peer.toGet[1..], processing := peer.processing + {id}) else peer;
    if done && peer.connected then popped.(processing := popped.processing - {id}) else popped
  }

  method HeadsSome(peers: Peers, id: Id) returns (yes: bool)
    ensures yes <==> exists q :: q in peers && Heads(peers[q], id)
  {
    yes := exists q :: q in peers && peers[q].connected && peers[q].toGet != [] && peers[q].toGet[0] == id;
  }

  /** The block leaves the front of all lists it heads; nobody has to deal with it if the client had it already. */
  method PopAll(peers: Peers, id: Id, done: bool) returns (next: Peers)
    ensures next == map q | q in peers :: Popped(peers[q], id, done)
  {
    next := map q | q in peers ::
      if peers[q].connected && peers[q].toGet != [] && peers[q].toGet[0] == id
      then peers[q].(toGet := peers[q].toGet[1..], processing := peers[q].processing + {id}) else peers[q];
    if done {
      next := map q | q in next ::
        if next[q].connected then next[q].(processing := next[q].processing - {id}) else next[q];
    }
  }

  lemma PoppedSame()
    ensures forall peer: Peer, id, done :: Popped(peer, id, done).requested == peer.requested
  {
  }

  lemma AfterPopping(peers: Peers, active: set<Id>, id: Id, done: bool)
    requires Contiguous(peers) && Exclusive(peers, active)
    ensures var next := map q | q in peers :: Popped(peers[q], id, done);
            Contiguous(next) && Exclusive(next, active)
  {
    forall q | q in peers
      ensures Synopsis.Consecutive(Popped(peers[q], id, done).toGet)
    {
      var ids := peers[q].toGet;
      if ids != [] {
        ConsecutivePart(ids, 1, |ids|);
        assert ids[1..|ids|] == ids[1..];
      }
    }
  }

  /** A peer after the client's verdict on a block it offered. */
  ghost function Dealt(peer: Peer, id: Id, accepted: bool, tooOld: bool): Peer
  {
    if !peer.connected || id !in peer.processing then peer
    else if accepted then peer.(processing := peer.processing - {id}, lastSeen := id)
    else if tooOld then peer.(inhibited := true)
    else peer.(connected := false)
  }

  /** The client's verdict reaches every peer that offered the block. */
  method DealAll(peers: Peers, id: Id, accepted: bool, tooOld: bool) returns (next: Peers)
    ensures next == map q | q in peers :: Dealt(peers[q], id, accepted, tooOld)
  {
    next := map q | q in peers ::
      if !peers[q].connected || id !in peers[q].processing then peers[q]
      else if accepted then peers[q].(processing := peers[q].processing - {id}, lastSeen := id)
      else if tooOld then peers[q].(inhibited := true)
      else peers[q].(connected := false);
  }

  lemma DealtSame()
    ensures forall peer: Peer, id, accepted, tooOld :: var d := Dealt(peer, id, accepted, tooOld);
      && d.requested == peer.requested && d.toGet == peer.toGet
      && (accepted ==> id !in d.processing || !d.connected)
  {
  }

  lemma AfterDealing(peers: Peers, active: set<Id>, id: Id, accepted: bool, tooOld: bool)
    requires Contiguous(peers) && Exclusive(peers, active)
    ensures var next := map q | q in peers :: Dealt(peers[q], id, accepted, tooOld);
            Contiguous(next) && Exclusive(next, active)
  {
    hide Synopsis.Consecutive;
    assert forall q :: q in peers ==>
      var d := Dealt(peers[q], id, accepted, tooOld); d.toGet == peers[q].toGet && d.requested == peers[q].requested;
  }

  /** What is planned of a peer is on its list, and neither at hand nor on order. */
  ghost predicate Wanted(peers: Peers, active: set<Id>, received: set<Id>, r: Request)
  {
    FreeOf(r, active) && FreeOf(r, received) && r.peer in peers && forall x :: x in r.ids ==> x in peers[r.peer].toGet
  }

  /** A peer that can be asked for blocks: connected, needed, not inhibited, and with nothing under way. */
  ghost predicate Idle(peer: Peer)
  {
    peer.connected && peer.needed && peer.requested == {} && peer.asked.None? && !peer.inhibited
  }

  /** A block on the peer's list that is neither at hand nor on order. */
  ghost predicate Missing(peer: Peer, active: set<Id>, received: set<Id>, x: Id)
  {
    x in peer.toGet && x !in received && x !in active
  }

  ghost predicate Taken(plan: seq<Request>, x: Id)
  {
    exists i :: 0 <= i < |plan| && x in plan[i].ids
  }

  ghost predicate Full(plan: seq<Request>, p: PeerId, limit: nat)
  {
    exists i :: 0 <= i < |plan| && plan[i].peer == p && plan[i].ids != [] && |plan[i].ids| >= limit
  }

  /** Every missing block of the peer is planned, or the peer has as many as it may. */
  ghost predicate Served(peer: Peer, p: PeerId, active: set<Id>, received: set<Id>, plan: seq<Request>, limit: nat)
  {
    Full(plan, p, limit) || forall x :: Missing(peer, active, received, x) ==> Taken(plan, x)
  }

  lemma StillTaken(plan: seq<Request>, more: seq<Request>, p: PeerId, limit: nat)
    requires plan <= more
    ensures Full(plan, p, limit) ==> Full(more, p, limit)
    ensures forall x :: Taken(plan, x) ==> Taken(more, x)
  {
    if Full(plan, p, limit) {
      var i :| 0 <= i < |plan| && plan[i].peer == p && plan[i].ids != [] && |plan[i].ids| >= limit;
      assert more[i] == plan[i];
    }
    forall x | Taken(plan, x)
      ensures Taken(more, x)
    {
      var i :| 0 <= i < |plan| && x in plan[i].ids;
      assert more[i] == plan[i];
    }
  }

  lemma ServedNow(peers: Peers, active: set<Id>, received: set<Id>, before: seq<Request>, plan: seq<Request>,
                  chosen: set<Id>, p: PeerId, ids: seq<Id>, limit: nat)
    requires p in peers && Planning(peers, active, received, plan, chosen)
    requires plan == if ids == [] then before else before + [Request(p, ids)]
    requires (ids != [] && |ids| >= limit)
      || forall x :: x in peers[p].toGet && x !in received && x !in chosen && x !in active ==> x in ids
    ensures Served(peers[p], p, active, received, plan, limit)
    ensures forall q :: q in peers && Served(peers[q], q, active, received, before, limit) ==>
      Served(peers[q], q, active, received, plan, limit)
  {
    forall q | q in peers && Served(peers[q], q, active, received, before, limit)
      ensures Served(peers[q], q, active, received, plan, limit)
    {
      StillTaken(before, plan, q, limit);
    }
    if ids != [] {
      assert plan[|before|] == Request(p, ids);
    }
    if !(ids != [] && |ids| >= limit) {
      forall x | Missing(peers[p], active, received, x)
        ensures Taken(plan, x)
      {
        if x in ids {
          assert x in plan[|before|].ids;
        }
      }
    }
  }

  /** A plan in the making: everything it chose is wanted, and chosen once. */
  ghost predicate Planning(peers: Peers, active: set<Id>, received: set<Id>, plan: seq<Request>, chosen: set<Id>)
  {
    && (forall i :: 0 <= i < |plan| ==> Wanted(peers, active, received, plan[i]) && forall x :: x in plan[i].ids ==>
      x in chosen)
    && (forall i, j, x :: 0 <= i < |plan| && 0 <= j < |plan| && Share(plan[i], plan[j], x) ==> i == j)
    && (forall x :: x in chosen ==> Taken(plan, x))
  }

  lemma PlanOneMore(peers: Peers, active: set<Id>, received: set<Id>, plan: seq<Request>, chosen: set<Id>, p: PeerId,
                    ids: seq<Id>)
    requires Planning(peers, active, received, plan, chosen) && p in peers
    requires forall x :: x in ids ==> x in peers[p].toGet && x !in received && x !in chosen && x !in active
    ensures Planning(peers, active, received, plan + [Request(p, ids)], chosen + (set x | x in ids))
  {
    var last := Request(p, ids);
    assert Wanted(peers, active, received, last);
    hide Wanted;
    var longer, more := plan + [last], chosen + (set x | x in ids);
    forall i | 0 <= i < |longer|
      ensures Wanted(peers, active, received, longer[i]) && forall x :: x in longer[i].ids ==> x in more
    {
      assert i < |plan| ==> longer[i] == plan[i];
    }
    forall i, j, x | 0 <= i < |longer| && 0 <= j < |longer| && Share(longer[i], longer[j], x)
      ensures i == j
    {
      assert i < |plan| ==> longer[i] == plan[i] && x in chosen;
      assert j < |plan| ==> longer[j] == plan[j] && x in chosen;
      assert i < |plan| && j < |plan| ==> Share(plan[i], plan[j], x);
    }
    StillTaken(plan, longer, p, 0);
    forall x | x in more
      ensures Taken(longer, x)
    {
      if x !in chosen {
        assert x in longer[|plan|].ids;
      }
    }
  }

  lemma PlanApart(peers: Peers, active: set<Id>, received: set<Id>, plan: seq<Request>, chosen: set<Id>)
    requires Planning(peers, active, received, plan, chosen)
    ensures Apart(plan, active)
    ensures forall i :: 0 <= i < |plan| ==> Wanted(peers, active, received, plan[i])
  {
    forall i | 0 <= i < |plan|
      ensures FreeOf(plan[i], active)
    {
      assert Wanted(peers, active, received, plan[i]);
    }
  }
}
