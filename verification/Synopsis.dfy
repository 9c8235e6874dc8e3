/**
  The exponential summary of a chain that two nodes synchronize by: the part
  made from the chain (get_blockchain_synopsis in libraries/app/application.cpp),
  the part made from the ids a peer announced (create_blockchain_synopsis_for_peer
  in libraries/net/node.cpp), the peer's answer (get_block_ids) and the check of it.
 */
module Synopsis {
  import opened Options

  /** A block id carries the number of its block; the zero id stands for no block. */
  datatype Id = Id(num: nat, hash: nat)

  const ZERO := Id(0, 0)

  /** The chain as queries see it: find gives the id for a number, from the main branch or what lies ahead of it. */
  datatype Chain = Chain(head: nat, lib: nat, find: nat -> Option<Id>)

  ghost predicate ChainValid(c: Chain)
  {
    && c.lib <= c.head
    && (forall n :: 1 <= n <= c.head ==> c.find(n).Some?)
    && (forall n :: c.find(n).Some? ==> c.find(n).value.num == n && n > 0)
  }

  // ---- The numbers in a summary ----

  ghost function Next(low: nat, top: nat): nat
    requires low <= top
  {
    low + (top - low + 2) / 2
  }

  /** The one-pass summary of the blocks low to top. */
  ghost function Marks(low: nat, top: nat): seq<nat>
    decreases top + 1 - low
  {
    if low > top then [] else [low] + Marks(Next(low, top), top)
  }

  /** Those marks that are at most high. */
  ghost function LowMarks(low: nat, top: nat, high: nat): seq<nat>
    requires high <= top
    decreases top + 1 - low
  {
    if low > high then [] else [low] + LowMarks(Next(low, top), top, high)
  }

  /** Those marks that are at least first. */
  ghost function HighMarks(low: nat, top: nat, first: nat): seq<nat>
    decreases top + 1 - low
  {
    if low > top then []
    else (if low >= first then [low] else []) + HighMarks(Next(low, top), top, first)
  }

  lemma {:induction false} HighMarksAreMarks(low: nat, top: nat, first: nat)
    requires first <= low
    ensures HighMarks(low, top, first) == Marks(low, top)
    decreases top + 1 - low
  {
    if low <= top {
      HighMarksAreMarks(Next(low, top), top, first);
    }
  }

  /** The seam: wherever the summary is cut, the two parts join to the whole. */
  lemma {:induction false} MarksJoin(low: nat, top: nat, high: nat)
    requires high <= top
    ensures LowMarks(low, top, high) + HighMarks(low, top, high + 1) == Marks(low, top)
    decreases top + 1 - low
  {
    if low <= high {
      MarksJoin(Next(low, top), top, high);
    } else {
      HighMarksAreMarks(low, top, high + 1);
    }
  }

  /** Strictly increasing, from the first block to exactly the last. */
  lemma {:induction false} MarksIncrease(low: nat, top: nat)
    requires low <= top
    ensures var m := Marks(low, top);
            && |m| > 0 && m[0] == low && m[|m| - 1] == top
            && (forall i, j :: 0 <= i < j < |m| ==> m[i] < m[j])
    decreases top - low
  {
    var m := Marks(low, top);
    var next := Next(low, top);
    if low < top {
      MarksIncrease(next, top);
      var rest := Marks(next, top);
      forall i, j | 0 <= i < j < |m|
        ensures m[i] < m[j]
      {
        assert m[j] == rest[j - 1];
        if i > 0 {
          assert m[i] == rest[i - 1];
        } else if j > 1 {
          assert rest[0] < rest[j - 1];
        }
      }
    } else {
      assert Marks(next, top) == [];
    }
  }

  ghost function Pow2(k: nat): (r: nat)
    ensures r > 0
  {
    if k == 0 then 1 else 2 * Pow2(k - 1)
  }

  /** A summary of n blocks has exactly floor(log2 n) + 1 entries: each one halves what is left. */
  lemma {:induction false} MarksCount(low: nat, top: nat)
    requires low <= top
    ensures var k := |Marks(low, top)|;
            k > 0 && Pow2(k - 1) <= top - low + 1 < Pow2(k)
    decreases top - low
  {
    var next := Next(low, top);
    assert top + 1 - next == (top - low + 1) / 2;
    if low < top {
      MarksCount(next, top);
      var k := |Marks(next, top)|;
      assert Pow2(k) == 2 * Pow2(k - 1) && Pow2(k + 1) == 2 * Pow2(k);
    } else {
      assert Marks(next, top) == [];
    }
  }

  // ---- The part made from the chain ----

  /** Blocks low to high of some branch: up to base from the chain, then the fork's own. */
  datatype Segment = Segment(low: nat, base: nat, high: nat, fork: seq<Id>)

  ghost predicate SegmentValid(c: Chain, s: Segment)
  {
    && 1 <= s.low <= s.high && s.high == s.base + |s.fork|
    && (forall i :: 0 <= i < |s.fork| ==> s.fork[i].num == s.base + 1 + i)
  }

  /** Where the id with number n comes from. */
  ghost function SourceOf(c: Chain, s: Segment, n: nat): Option<Id>
    requires s.high == s.base + |s.fork|
  {
    if n <= s.base then c.find(n)
    else if n <= s.high then Some(s.fork[n - s.base - 1])
    else None
  }

  /** A branch off the chain: the number of the block it leaves from, and its blocks in order. */
  datatype ForkHistory = ForkHistory(base: nat, ids: seq<Id>)

  ghost predicate ForkValid(c: Chain, f: ForkHistory, reference: Id)
  {
    && f.base <= c.head && f.ids != [] && f.ids[|f.ids| - 1] == reference
    && (forall i :: 0 <= i < |f.ids| ==> f.ids[i].num == f.base + 1 + i)
  }

  datatype Result = Ok(ids: seq<Id>) | TooOld | Failed

  datatype Extent = Nothing | Extent(segment: Segment) | ForkTooOld | Unknown

  ghost function AtLeastOne(n: nat): nat
  {
    if n == 0 then 1 else n
  }

  /** Which blocks a summary covers: up to the reference point, from the last block that cannot be undone. */
  ghost function ExtentOf(c: Chain, reference: Id, history: Option<ForkHistory>): Extent
  {
    if reference == ZERO then
      if c.head == 0 then Nothing else Extent(Segment(AtLeastOne(c.lib), c.head, c.head, []))
    else
      match c.find(reference.num)
      case None => Unknown
      case Some(found) =>
        if found == reference then
          Extent(Segment(AtLeastOne(if reference.num < c.lib then reference.num else c.lib), reference.num,
            reference.num, []))
        else if history.None? then Unknown
        else if history.value.base < c.lib then ForkTooOld
        else Extent(Segment(AtLeastOne(c.lib), history.value.base, history.value.base + |history.value.ids|,
          history.value.ids))
  }

  /** The segment runs to the reference point, or to the head without one, and its ids are there up to the head. */
  lemma ExtentFits(c: Chain, reference: Id, history: Option<ForkHistory>)
    requires ChainValid(c) && (history.Some? ==> ForkValid(c, history.value, reference))
    ensures var e := ExtentOf(c, reference, history);
            && (e.Extent? ==> SegmentValid(c, e.segment))
            && (e.Extent? && reference != ZERO ==>
              e.segment.high == reference.num && SourceOf(c, e.segment, reference.num) == Some(reference))
            && (e.Extent? && reference == ZERO ==> e.segment.high == e.segment.base == c.head)
            && (e.Extent? && e.segment.fork != [] ==> c.lib <= e.segment.base <= c.head)
            && (e.Extent? ==> e.segment.low == if c.lib == 0 then 1 else if c.lib <= e.segment.high
              then c.lib else e.segment.high)
  {
  }

  /** get_blockchain_synopsis, up to its loop. */
  method FindExtent(c: Chain, reference: Id, history: Option<ForkHistory>) returns (e: Extent)
    requires ChainValid(c)
    requires history.Some? ==> ForkValid(c, history.value, reference)
    ensures e == ExtentOf(c, reference, history)
  {
    var low := c.lib;
    var s: Segment;
    if reference != ZERO {
      var found := c.find(reference.num);
      if found.None? {
        return Unknown;
      }
      if found.value == reference {
        if reference.num < low {
          low := reference.num;
        }
        s := Segment(low, reference.num, reference.num, []);
      } else {
        if history.None? {
          return Unknown;
        }
        var f := history.value;
        s := Segment(low, f.base, f.base + |f.ids|, f.ids);
        if f.base < low {
          return ForkTooOld;
        }
      }
    } else {
      s := Segment(low, c.head, c.head, []);
      if c.head == 0 {
        return Nothing;
      }
    }
    if s.low == 0 {
      s := s.(low := 1);
    }
    e := Extent(s);
  }

  /** The ids at the given numbers, when all of them can be found. */
  ghost predicate IdsAt(c: Chain, s: Segment, marks: seq<nat>, ids: seq<Id>)
    requires s.high == s.base + |s.fork|
  {
    |ids| == |marks| && forall i :: 0 <= i < |marks| ==> SourceOf(c, s, marks[i]) == Some(ids[i])
  }

  /** All of these numbers have an id. */
  ghost predicate AllFound(c: Chain, s: Segment, marks: seq<nat>)
    requires s.high == s.base + |s.fork|
  {
    forall i :: 0 <= i < |marks| ==> SourceOf(c, s, marks[i]).Some?
  }

  /** A segment that leaves the chain no higher than its head has all its ids. */
  lemma FoundBelowHead(c: Chain, s: Segment, top: nat)
    requires ChainValid(c) && SegmentValid(c, s) && s.base <= c.head && s.high <= top
    ensures AllFound(c, s, LowMarks(s.low, top, s.high))
  {
    LowMarksBelow(s.low, top, s.high);
  }

  lemma LowMarksStep(start: nat, low: nat, top: nat, high: nat, marks: seq<nat>)
    requires low <= high <= top && marks + LowMarks(low, top, high) == LowMarks(start, top, high)
    ensures (marks + [low]) + LowMarks(low + (top - low + 2) / 2, top, high) == LowMarks(start, top, high)
    ensures |marks| < |LowMarks(start, top, high)| && LowMarks(start, top, high)[|marks|] == low
  {
    var rest := LowMarks(Next(low, top), top, high);
    assert LowMarks(low, top, high) == [low] + rest;
    assert marks + ([low] + rest) == (marks + [low]) + rest;
  }

  lemma NotAllFound(c: Chain, s: Segment, marks: seq<nat>, k: nat)
    requires s.high == s.base + |s.fork| && k < |marks| && SourceOf(c, s, marks[k]).None?
    ensures !AllFound(c, s, marks)
  {
  }

  lemma OneMoreId(c: Chain, s: Segment, marks: seq<nat>, ids: seq<Id>, low: nat, id: Id)
    requires s.high == s.base + |s.fork| && IdsAt(c, s, marks, ids) && SourceOf(c, s, low) == Some(id)
    ensures IdsAt(c, s, marks + [low], ids + [id])
  {
  }

  /** The loop of get_blockchain_synopsis, leaving room for after further blocks. */
  method SummarizeSegment(c: Chain, s: Segment, after: nat) returns (r: Result)
    requires ChainValid(c) && SegmentValid(c, s)
    ensures r.Ok? || r.Failed?
    ensures r.Ok? <==> AllFound(c, s, LowMarks(s.low, s.high + after, s.high))
    ensures r.Ok? ==> IdsAt(c, s, LowMarks(s.low, s.high + after, s.high), r.ids)
  {
    var top := s.high + after;
    var low, ids := s.low, [];
    ghost var marks: seq<nat> := [];
    assert IdsAt(c, s, marks, ids);
    hide IdsAt, AllFound;
    while true
      invariant s.low <= low <= s.high && IdsAt(c, s, marks, ids)
      invariant marks + LowMarks(low, top, s.high) == LowMarks(s.low, top, s.high)
      decreases s.high - low
    {
      var id := None;
      if low <= s.base {
        id := c.find(low);
      } else if low <= s.high {
        id := Some(s.fork[low - s.base - 1]);
      }
      var next := low + (top - low + 2) / 2;
      assert id == SourceOf(c, s, low);
      LowMarksStep(s.low, low, top, s.high, marks);
      if id.None? {
        NotAllFound(c, s, LowMarks(s.low, top, s.high), |marks|);
        return Failed;
      }
      OneMoreId(c, s, marks, ids, low, id.value);
      ids := ids + [id.value];
      marks := marks + [low];
      low := next;
      if low > s.high {
        break;
      }
    }
    assert LowMarks(low, top, s.high) == [];
    assert marks == LowMarks(s.low, top, s.high);
    AllFoundOf(c, s, marks, ids);
    r := Ok(ids);
  }

  lemma AllFoundOf(c: Chain, s: Segment, marks: seq<nat>, ids: seq<Id>)
    requires s.high == s.base + |s.fork| && IdsAt(c, s, marks, ids)
    ensures AllFound(c, s, marks)
  {
    forall i | 0 <= i < |marks|
      ensures SourceOf(c, s, marks[i]).Some?
    {
      assert SourceOf(c, s, marks[i]) == Some(ids[i]);
    }
  }

  /** The marks that the chain's part takes when after further blocks follow. */
  ghost function ChainMarks(s: Segment, after: nat): seq<nat>
  {
    LowMarks(s.low, s.high + after, s.high)
  }

  method GetBlockchainSynopsis(c: Chain, reference: Id, history: Option<ForkHistory>, after: nat) returns (r: Result)
    requires ChainValid(c)
    requires history.Some? ==> ForkValid(c, history.value, reference)
    ensures ExtentOf(c, reference, history).Extent? ==> SegmentValid(c, ExtentOf(c, reference, history).segment)
    ensures match ExtentOf(c, reference, history)
            case Nothing => r == Ok([])
            case ForkTooOld => r == TooOld
            case Unknown => r == Failed
            case Extent(s) =>
              if AllFound(c, s, ChainMarks(s, after)) then r.Ok?
                && IdsAt(c, s, ChainMarks(s, after), r.ids) else r == Failed
  {
    ExtentFits(c, reference, history);
    var extent := FindExtent(c, reference, history);
    match extent
    case Nothing => r := Ok([]);
    case ForkTooOld => r := TooOld;
    case Unknown => r := Failed;
    case Extent(s) => r := SummarizeSegment(c, s, after);
  }

  // ---- The part made from the announced ids ----

  ghost predicate Consecutive(ids: seq<Id>)
  {
    forall i :: 0 <= i < |ids| ==> ids[i].num == ids[0].num + i
  }

  /** The whole branch: the segment and the announced ids after it. */
  ghost function Joined(s: Segment, wanted: seq<Id>): Segment
  {
    s.(high := s.high + |wanted|, fork := s.fork + wanted)
  }

  lemma LowMarksBelow(low: nat, top: nat, high: nat)
    requires high <= top
    ensures forall i :: 0 <= i < |LowMarks(low, top, high)| ==> low <= LowMarks(low, top, high)[i] <= high
    ensures low <= high ==> LowMarks(low, top, high) != [] && LowMarks(low, top, high)[0] == low
    decreases top + 1 - low
  {
    if low <= high {
      LowMarksBelow(Next(low, top), top, high);
    }
  }

  lemma JoinedSource(c: Chain, s: Segment, wanted: seq<Id>, marks: seq<nat>, ids: seq<Id>)
    requires s.high == s.base + |s.fork| && IdsAt(c, s, marks, ids)
    requires forall i :: 0 <= i < |marks| ==> marks[i] <= s.high
    ensures IdsAt(c, Joined(s, wanted), marks, ids)
  {
    forall i | 0 <= i < |marks|
      ensures SourceOf(c, Joined(s, wanted), marks[i]) == Some(ids[i])
    {
      assert SourceOf(c, s, marks[i]) == Some(ids[i]);
    }
  }

  /** The summary that a single pass over the joined branch would give. */
  ghost predicate Seamless(c: Chain, s: Segment, wanted: seq<Id>, synopsis: seq<Id>)
    requires s.high == s.base + |s.fork|
  {
    IdsAt(c, Joined(s, wanted), Marks(s.low, s.high + |wanted|), synopsis)
  }

  /** Where the loop over the announced ids starts. */
  ghost function FirstMarkOf(e: Extent): nat
  {
    if e.Extent? then e.segment.low else 1
  }

  /**
    The summary has the chain's ids at the marks up to the reference point, and the announced ones
    at the marks among them.
   */
  ghost predicate Summary(c: Chain, e: Extent, wanted: seq<Id>, ids: seq<Id>, cut: nat)
    requires e.Extent? ==> e.segment.high == e.segment.base + |e.segment.fork|
  {
    && cut <= |ids|
    && (if e.Extent? then IdsAt(c, e.segment, ChainMarks(e.segment, |wanted|), ids[..cut]) else cut == 0)
    && (if wanted == [] then cut == |ids|
        else WantedAt(wanted, wanted[0].num, HighMarks(FirstMarkOf(e), wanted[0].num + |wanted| - 1, wanted[0].num),
          ids[cut..]))
  }

  /** The loop would read beyond the announced ids. */
  ghost predicate Overreads(e: Extent, wanted: seq<Id>)
  {
    wanted != [] && FirstMarkOf(e) > wanted[0].num + |wanted| - 1
  }

  /** The announced ids follow the reference point. */
  ghost predicate Follows(e: Extent, wanted: seq<Id>)
  {
    wanted == [] || (e.Extent? && wanted[0].num == e.segment.high + 1) || (e.Nothing? && wanted[0].num == 1)
  }

  /** A known reference point that the announced ids follow always gives a summary. */
  lemma FollowingIsSummarized(c: Chain, reference: Id, history: Option<ForkHistory>, wanted: seq<Id>)
    requires ChainValid(c) && (history.Some? ==> ForkValid(c, history.value, reference))
    requires Follows(ExtentOf(c, reference, history), wanted)
    requires reference == ZERO || (c.find(reference.num) == Some(reference) && reference.num <= c.head)
             || (c.find(reference.num).Some? && c.find(reference.num).value != reference && history.Some?
               && c.lib <= history.value.base)
    ensures var e := ExtentOf(c, reference, history);
            && (e.Extent? || e.Nothing?) && !Overreads(e, wanted)
            && (e.Extent? ==> SegmentValid(c, e.segment) && AllFound(c, e.segment, ChainMarks(e.segment, |wanted|)))
  {
    hide LowMarks;
    ExtentFits(c, reference, history);
    var e := ExtentOf(c, reference, history);
    if e.Extent? {
      FoundBelowHead(c, e.segment, e.segment.high + |wanted|);
    }
  }

  /** In that case it is the one-pass summary of the joined chain and ends at the last announced id. */
  lemma FollowingIsSeamless(c: Chain, e: Extent, wanted: seq<Id>, ids: seq<Id>, cut: nat)
    requires e.Extent? && SegmentValid(c, e.segment) && Follows(e, wanted) && Summary(c, e, wanted, ids, cut)
    ensures Seamless(c, e.segment, wanted, ids)
    ensures wanted != [] ==> ids != [] && ids[|ids| - 1] == wanted[|wanted| - 1]
  {
    hide LowMarks, HighMarks, Marks, IdsAt, WantedAt, Seamless;
    assert ids == ids[..cut] + ids[cut..];
    if wanted == [] {
      assert ids[..cut] == ids;
      NoMore(c, e.segment, ids);
    } else {
      JoinParts(c, e.segment, wanted, ids[..cut], ids[cut..]);
    }
  }

  /** The same over an empty chain. */
  lemma FollowingNothing(c: Chain, wanted: seq<Id>, ids: seq<Id>, cut: nat)
    requires wanted != [] && wanted[0].num == 1 && Summary(c, Nothing, wanted, ids, cut)
    ensures IdsAt(c, Segment(1, 0, |wanted|, wanted), Marks(1, |wanted|), ids)
    ensures ids != [] && ids[|ids| - 1] == wanted[|wanted| - 1]
  {
    hide HighMarks, Marks, IdsAt, WantedAt;
    assert ids[cut..] == ids;
    WantedOnly(c, wanted, ids);
  }

  /**
    create_blockchain_synopsis_for_peer: the chain's part, then the announced ids
    at the marks that fall among them.
   */
  method CreateSynopsisForPeer(c: Chain, reference: Id, history: Option<ForkHistory>, wanted: seq<Id>)
    returns (r: Result, ghost cut: nat)
    requires ChainValid(c) && Consecutive(wanted)
    requires history.Some? ==> ForkValid(c, history.value, reference)
    requires wanted != [] ==> wanted[0].num > 0
    ensures var e := ExtentOf(c, reference, history);
      && (e.Extent? ==> SegmentValid(c, e.segment))
      && (r.TooOld? <==> e.ForkTooOld?)
      && (r.Ok? <==>
            && (e.Nothing? || (e.Extent? && AllFound(c, e.segment, ChainMarks(e.segment, |wanted|))))
            && !Overreads(e, wanted))
      && (r.Ok? ==> Summary(c, e, wanted, r.ids, cut) && ZERO !in r.ids)
      && (r.Ok? && e.Extent? && Follows(e, wanted) ==> Seamless(c, e.segment, wanted, r.ids))
      && (r.Ok? && wanted != [] && Follows(e, wanted) ==> r.ids != [] && r.ids[|r.ids| - 1] == wanted[|wanted| - 1])
  {
    hide Marks, LowMarks, HighMarks, IdsAt, WantedAt, SourceOf, Seamless, AllFound, ExtentOf, ChainMarks;
    ghost var e := ExtentOf(c, reference, history);
    r := GetBlockchainSynopsis(c, reference, history, |wanted|);
    cut := 0;
    if !r.Ok? {
      return;
    }
    var synopsis := r.ids;
    cut := |synopsis|;
    if e.Extent? {
      ChainPartStarts(c, e.segment, |wanted|, synopsis);
    }
    if wanted != [] {
      var first := wanted[0].num;
      var top := first + |wanted| - 1;
      var low := if synopsis == [] then 1 else synopsis[0].num;
      assert low == FirstMarkOf(e);
      if low > top {
        return Failed, cut;
      }
      var more := SummarizeWanted(wanted, low, top);
      NonzeroWanted(wanted, HighMarks(low, top, first), more);
      r := Ok(synopsis + more);
    }
    assert r.ids[..cut] == synopsis && (wanted != [] ==> r.ids == synopsis + r.ids[cut..]);
    if Follows(e, wanted) {
      if e.Extent? {
        FollowingIsSeamless(c, e, wanted, r.ids, cut);
      } else if wanted != [] {
        FollowingNothing(c, wanted, r.ids, cut);
      }
    }
  }

  /**
    A node at block 10 with blocks up to 5 irreversible, and a list of announced
    ids that ends at block 3: the loop starts at block 5 and reads beyond the list.
   */
  method ReadsBeyond() returns (c: Chain, wanted: seq<Id>, r: Result)
    ensures ChainValid(c) && Consecutive(wanted) && wanted == [Id(3, 0)]
    ensures Overreads(ExtentOf(c, ZERO, None), wanted) && r == Failed
  {
    c := Chain(10, 5, (n: nat) => if 1 <= n <= 10 then Some(Id(n, 0)) else None);
    wanted := [Id(3, 0)];
    ghost var cut;
    r, cut := CreateSynopsisForPeer(c, ZERO, None, wanted);
  }

  lemma ChainPartStarts(c: Chain, s: Segment, after: nat, ids: seq<Id>)
    requires ChainValid(c) && SegmentValid(c, s) && IdsAt(c, s, ChainMarks(s, after), ids)
    ensures ids != [] && ids[0].num == s.low && ZERO !in ids
  {
    hide LowMarks, IdsAt, SourceOf;
    LowMarksBelow(s.low, s.high + after, s.high);
    NonzeroSource(c, s, ChainMarks(s, after), ids);
    FirstMark(c, s, ChainMarks(s, after), ids);
  }

  /** The announced ids at these marks. */
  ghost predicate WantedAt(wanted: seq<Id>, first: nat, marks: seq<nat>, ids: seq<Id>)
  {
    |ids| == |marks|
    && forall i :: 0 <= i < |marks| ==> first <= marks[i] < first + |wanted| && ids[i] == wanted[marks[i] - first]
  }

  /** The loop over the announced ids. */
  method SummarizeWanted(wanted: seq<Id>, start: nat, top: nat) returns (ids: seq<Id>)
    requires wanted != [] && top == wanted[0].num + |wanted| - 1 && start <= top
    ensures WantedAt(wanted, wanted[0].num, HighMarks(start, top, wanted[0].num), ids)
  {
    var first := wanted[0].num;
    ids := [];
    var low := start;
    ghost var marks: seq<nat> := [];
    hide HighMarks, WantedAt;
    WantedStart(wanted, first);
    while low <= top
      invariant WantedAt(wanted, first, marks, ids)
      invariant marks + HighMarks(low, top, first) == HighMarks(start, top, first)
      decreases top + 1 - low
    {
      ghost var now := HighMarksStep(low, top, first, marks);
      if low >= first {
        WantedStep(wanted, first, marks, ids, low);
        ids := ids + [wanted[low - first]];
      } else {
        assert marks + now == marks;
      }
      marks := marks + now;
      low := low + (top - low + 2) / 2;
    }
    HighMarksEnd(low, top, first);
    assert marks + [] == marks;
  }

  lemma WantedStart(wanted: seq<Id>, first: nat)
    ensures WantedAt(wanted, first, [], [])
  {
  }

  lemma WantedStep(wanted: seq<Id>, first: nat, marks: seq<nat>, ids: seq<Id>, low: nat)
    requires WantedAt(wanted, first, marks, ids) && first <= low < first + |wanted|
    ensures WantedAt(wanted, first, marks + [low], ids + [wanted[low - first]])
  {
  }

  lemma HighMarksStep(low: nat, top: nat, first: nat, marks: seq<nat>) returns (now: seq<nat>)
    requires low <= top
    ensures now == if low >= first then [low] else []
    ensures marks + HighMarks(low, top, first) == (marks + now) + HighMarks(Next(low, top), top, first)
  {
    now := if low >= first then [low] else [];
    assert marks + (now + HighMarks(Next(low, top), top, first))
      == (marks + now) + HighMarks(Next(low, top), top, first);
  }

  lemma HighMarksEnd(low: nat, top: nat, first: nat)
    requires low > top
    ensures HighMarks(low, top, first) == []
  {
  }

  lemma NonzeroSource(c: Chain, s: Segment, marks: seq<nat>, ids: seq<Id>)
    requires ChainValid(c) && SegmentValid(c, s) && IdsAt(c, s, marks, ids)
    requires forall i :: 0 <= i < |marks| ==> s.low <= marks[i]
    ensures ZERO !in ids
  {
    forall i | 0 <= i < |ids|
      ensures ids[i] != ZERO
    {
      assert SourceOf(c, s, marks[i]) == Some(ids[i]);
    }
  }

  lemma NonzeroWanted(wanted: seq<Id>, marks: seq<nat>, ids: seq<Id>)
    requires Consecutive(wanted) && wanted != [] && wanted[0].num > 0 && WantedAt(wanted, wanted[0].num, marks, ids)
    ensures ZERO !in ids
  {
    forall i | 0 <= i < |ids|
      ensures ids[i] != ZERO
    {
      assert ids[i] == wanted[marks[i] - wanted[0].num];
    }
  }

  lemma NoMore(c: Chain, s: Segment, ids: seq<Id>)
    requires SegmentValid(c, s) && IdsAt(c, s, LowMarks(s.low, s.high + 0, s.high), ids)
    ensures Seamless(c, s, [], ids)
  {
    MarksJoin(s.low, s.high, s.high);
    NoneAbove(s.low, s.high);
    assert Joined(s, []) == s;
  }

  lemma {:induction false} NoneAbove(low: nat, top: nat)
    ensures HighMarks(low, top, top + 1) == []
    decreases top + 1 - low
  {
    if low <= top {
      NoneAbove(Next(low, top), top);
    }
  }

  lemma FirstMark(c: Chain, s: Segment, marks: seq<nat>, ids: seq<Id>)
    requires ChainValid(c) && SegmentValid(c, s) && IdsAt(c, s, marks, ids) && marks != [] && marks[0] == s.low
    ensures ids != [] && ids[0].num == s.low
  {
    assert SourceOf(c, s, marks[0]) == Some(ids[0]);
  }

  lemma JoinParts(c: Chain, s: Segment, wanted: seq<Id>, synopsis: seq<Id>, more: seq<Id>)
    requires SegmentValid(c, s) && wanted != []
    requires IdsAt(c, s, LowMarks(s.low, s.high + |wanted|, s.high), synopsis)
    requires WantedAt(wanted, s.high + 1, HighMarks(s.low, s.high + |wanted|, s.high + 1), more)
    ensures Seamless(c, s, wanted, synopsis + more)
    ensures synopsis + more != [] && (synopsis + more)[|synopsis + more| - 1] == wanted[|wanted| - 1]
  {
    hide Marks, LowMarks, HighMarks, IdsAt, WantedAt;
    var top := s.high + |wanted|;
    var a, b := LowMarks(s.low, top, s.high), HighMarks(s.low, top, s.high + 1);
    LowMarksBelow(s.low, top, s.high);
    JoinedSource(c, s, wanted, a, synopsis);
    WantedSource(c, s, wanted, b, more);
    IdsAtConcat(c, Joined(s, wanted), a, b, synopsis, more);
    MarksJoin(s.low, top, s.high);
    LastId(c, s, wanted, synopsis + more);
  }

  /** A seamless summary ends at the last announced id. */
  lemma LastId(c: Chain, s: Segment, wanted: seq<Id>, ids: seq<Id>)
    requires SegmentValid(c, s) && wanted != [] && Seamless(c, s, wanted, ids)
    ensures ids != [] && ids[|ids| - 1] == wanted[|wanted| - 1]
  {
    hide Marks;
    var top := s.high + |wanted|;
    MarksIncrease(s.low, top);
    var last := |Marks(s.low, top)| - 1;
    assert SourceOf(c, Joined(s, wanted), Marks(s.low, top)[last]) == Some(ids[last]);
  }

  lemma WantedSource(c: Chain, s: Segment, wanted: seq<Id>, marks: seq<nat>, ids: seq<Id>)
    requires s.high == s.base + |s.fork| && WantedAt(wanted, s.high + 1, marks, ids)
    ensures IdsAt(c, Joined(s, wanted), marks, ids)
  {
    forall i | 0 <= i < |marks|
      ensures SourceOf(c, Joined(s, wanted), marks[i]) == Some(ids[i])
    {
      assert ids[i] == wanted[marks[i] - (s.high + 1)];
    }
  }

  lemma IdsAtConcat(c: Chain, s: Segment, a: seq<nat>, b: seq<nat>, x: seq<Id>, y: seq<Id>)
    requires s.high == s.base + |s.fork| && IdsAt(c, s, a, x) && IdsAt(c, s, b, y)
    ensures IdsAt(c, s, a + b, x + y)
  {
    hide SourceOf;
    forall i | 0 <= i < |a + b|
      ensures SourceOf(c, s, (a + b)[i]) == Some((x + y)[i])
    {
      if i < |a| {
        assert SourceOf(c, s, a[i]) == Some(x[i]);
      } else {
        assert SourceOf(c, s, b[i - |a|]) == Some(y[i - |a|]);
      }
    }
  }

  lemma EndOfWanted(c: Chain, wanted: seq<Id>, ids: seq<Id>)
    requires wanted != [] && IdsAt(c, Segment(1, 0, |wanted|, wanted), Marks(1, |wanted|), ids)
    ensures ids != [] && ids[|ids| - 1] == wanted[|wanted| - 1]
  {
    hide Marks;
    MarksIncrease(1, |wanted|);
    var last := |Marks(1, |wanted|)| - 1;
    assert SourceOf(c, Segment(1, 0, |wanted|, wanted), Marks(1, |wanted|)[last]) == Some(ids[last]);
  }

  lemma WantedOnly(c: Chain, wanted: seq<Id>, more: seq<Id>)
    requires wanted != [] && WantedAt(wanted, 1, HighMarks(1, |wanted|, 1), more)
    ensures IdsAt(c, Segment(1, 0, |wanted|, wanted), Marks(1, |wanted|), more)
    ensures more != [] && more[|more| - 1] == wanted[|wanted| - 1]
  {
    hide Marks, HighMarks, IdsAt, WantedAt;
    HighMarksAreMarks(1, |wanted|, 1);
    var empty := Segment(1, 0, 0, []);
    WantedSource(c, empty, wanted, Marks(1, |wanted|), more);
    assert Joined(empty, wanted) == Segment(1, 0, |wanted|, wanted);
    EndOfWanted(c, wanted, more);
  }

  // ---- The answer and its check ----

  /** What a requester takes for a valid answer to its synopsis. */
  ghost predicate Acceptable(synopsis: seq<Id>, answer: seq<Id>)
  {
    answer == []
    || (Consecutive(answer) && if synopsis == [] then answer[0].num == 1 else answer[0] in synopsis)
  }

  /** The checks of on_blockchain_item_ids_inventory_message. */
  method CheckAnswer(synopsis: seq<Id>, answer: seq<Id>) returns (ok: bool)
    ensures ok <==> Acceptable(synopsis, answer)
  {
    if answer == [] {
      return true;
    }
    for i := 1 to |answer|
      invariant forall k :: 0 <= k < i ==> answer[k].num == answer[0].num + k
    {
      if answer[i].num != answer[0].num + i {
        return false;
      }
    }
    if synopsis == [] {
      ok := answer[0].num == 1;
    } else {
      ok := answer[0] in synopsis;
    }
  }

  /** A block of a synopsis that we have, on our chain. */
  ghost predicate Recognized(c: Chain, known: set<Id>, id: Id)
  {
    id in known && c.find(id.num) == Some(id)
  }

  ghost predicate LastRecognized(c: Chain, known: set<Id>, synopsis: seq<Id>, k: nat)
  {
    k < |synopsis| && Recognized(c, known, synopsis[k]) && forall j :: k < j < |synopsis| ==>
      !Recognized(c, known, synopsis[j])
  }

  /**
    The last entry of a synopsis that an answer can start from: the zero id, or a
    block on our chain. Nothing when there is none, or when the number of a block we
    know cannot be looked up first.
   */
  ghost function LastKnown(c: Chain, known: set<Id>, synopsis: seq<Id>): Option<Id>
  {
    if synopsis == [] then None
    else
      var id := synopsis[|synopsis| - 1];
      if id == ZERO then Some(ZERO)
      else if id in known && c.find(id.num).None? then None
      else if id in known && c.find(id.num).value == id then Some(id)
      else LastKnown(c, known, synopsis[..|synopsis| - 1])
  }

  ghost function AnswerPoint(c: Chain, known: set<Id>, synopsis: seq<Id>): Option<Id>
  {
    if synopsis == [] then Some(ZERO) else LastKnown(c, known, synopsis)
  }

  /** Without the zero id that entry is the last one recognised. */
  lemma {:induction false} LastKnownRecognized(c: Chain, known: set<Id>, synopsis: seq<Id>) returns (k: nat)
    requires LastKnown(c, known, synopsis).Some? && ZERO !in synopsis
    ensures k < |synopsis| && synopsis[k] == LastKnown(c, known, synopsis).value
    ensures LastRecognized(c, known, synopsis, k)
  {
    var last := |synopsis| - 1;
    if Recognized(c, known, synopsis[last]) {
      k := last;
    } else {
      k := LastKnownRecognized(c, known, synopsis[..last]);
      assert forall j :: 0 <= j < last ==> synopsis[..last][j] == synopsis[j];
    }
  }

  /** There is one as soon as some entry is recognised and every known one can be looked up. */
  lemma {:induction false} RecognizedIsKnown(c: Chain, known: set<Id>, synopsis: seq<Id>, k: nat)
    requires k < |synopsis| && Recognized(c, known, synopsis[k])
    requires forall j :: 0 <= j < |synopsis| && synopsis[j] in known ==> c.find(synopsis[j].num).Some?
    ensures LastKnown(c, known, synopsis).Some?
    decreases |synopsis|
  {
    var last := |synopsis| - 1;
    if k < last {
      assert forall j :: 0 <= j < last ==> synopsis[..last][j] == synopsis[j];
      RecognizedIsKnown(c, known, synopsis[..last], k);
    }
  }

  /** The scan of the synopsis from its end. */
  method FindLastKnown(c: Chain, known: set<Id>, synopsis: seq<Id>) returns (r: Option<Id>)
    ensures r == LastKnown(c, known, synopsis)
  {
    var i := |synopsis|;
    assert synopsis[..i] == synopsis;
    while i > 0
      invariant 0 <= i <= |synopsis|
      invariant LastKnown(c, known, synopsis) == LastKnown(c, known, synopsis[..i])
    {
      var id := synopsis[i - 1];
      assert synopsis[..i][..i - 1] == synopsis[..i - 1];
      if id == ZERO {
        return Some(ZERO);
      }
      if id in known {
        var found := c.find(id.num);
        if found.None? {
          return None;
        }
        if found.value == id {
          return Some(id);
        }
      }
      i := i - 1;
    }
    r := None;
  }

  /**
    An answer starts where the two chains are known to part and goes on to the limit or to the responder's head:
    when that lies beyond, it brings new blocks.
   */
  ghost predicate GoesOn(c: Chain, point: nat, limit: nat, answer: seq<Id>)
  {
    && |answer| <= limit && (point > c.head ==> answer == [])
    && (point <= c.head && limit > 0 ==>
          && answer != [] && answer[0].num == AtLeastOne(point)
          && (|answer| == limit || answer[|answer| - 1].num == c.head)
          && (point < c.head && limit > 1 ==> point < answer[|answer| - 1].num))
  }

  lemma AnswerGoesOn(c: Chain, point: nat, limit: nat, answer: seq<Id>)
    requires ChainValid(c) && c.head > 0
    requires |answer| == AnswerSize(c, AtLeastOne(point), limit) && IdsFrom(c, AtLeastOne(point), answer)
    ensures GoesOn(c, point, limit, answer)
  {
    IdsFromAcceptable(c, AtLeastOne(point), answer);
  }

  /** A requester whose last summarised block the responder has gets the blocks after it, and nothing it has twice. */
  lemma BringsFurther(c: Chain, known: set<Id>, synopsis: seq<Id>, limit: nat, answer: seq<Id>)
    requires ChainValid(c) && synopsis != [] && limit > 1
    requires var id := synopsis[|synopsis| - 1]; id != ZERO && Recognized(c, known, id) && 0 < id.num < c.head
    requires GoesOn(c, LastKnown(c, known, synopsis).value.num, limit, answer) && Consecutive(answer)
    requires IdsFrom(c, AtLeastOne(LastKnown(c, known, synopsis).value.num), answer)
    ensures answer[0] == synopsis[|synopsis| - 1] && |answer| > 1
    ensures forall i :: 0 < i < |answer| ==> answer[i].num > answer[0].num && c.find(answer[i].num) == Some(answer[i])
  {
    var id := synopsis[|synopsis| - 1];
    assert LastKnown(c, known, synopsis) == Some(id);
    assert c.find(id.num + 0) == Some(answer[0]);
    forall i | 0 < i < |answer|
      ensures answer[i].num > answer[0].num && c.find(answer[i].num) == Some(answer[i])
    {
      assert c.find(id.num + i) == Some(answer[i]);
    }
  }

  /** How many ids an answer from number start has. */
  ghost function AnswerSize(c: Chain, start: nat, limit: nat): nat
  {
    if start > c.head then 0 else if c.head - start + 1 < limit then c.head - start + 1 else limit
  }

  /** The ids from number start on. */
  ghost predicate IdsFrom(c: Chain, start: nat, ids: seq<Id>)
  {
    forall i :: 0 <= i < |ids| ==> c.find(start + i) == Some(ids[i])
  }

  lemma IdsFromAcceptable(c: Chain, start: nat, ids: seq<Id>)
    requires ChainValid(c) && IdsFrom(c, start, ids)
    ensures Consecutive(ids)
      && (ids != [] ==> ids[0].num == start && c.find(start) == Some(ids[0]) && ids[|ids| - 1].num == start + |ids| - 1)
  {
    forall i | 0 <= i < |ids|
      ensures ids[i].num == start + i
    {
      assert c.find(start + i) == Some(ids[i]);
    }
    if ids != [] {
      assert c.find(start + 0) == Some(ids[0]);
    }
  }

  /**
    get_block_ids: from the last block of the synopsis that is on our chain, up to
    limit ids. Every answer to a synopsis without the zero id passes the check.
   */
  method GetBlockIds(c: Chain, known: set<Id>, synopsis: seq<Id>, limit: nat)
    returns (ok: bool, answer: seq<Id>, remaining: nat)
    requires ChainValid(c)
    ensures ok <==> c.head == 0 || AnswerPoint(c, known, synopsis).Some?
    ensures ok && c.head == 0 ==> answer == [] && remaining == 0
    ensures ok && c.head > 0 ==>
      var start := AtLeastOne(AnswerPoint(c, known, synopsis).value.num);
      && |answer| == AnswerSize(c, start, limit) && IdsFrom(c, start, answer)
      && remaining == if answer == [] then 0 else c.head - (start + |answer| - 1)
    ensures ok && c.head > 0 ==> GoesOn(c, AnswerPoint(c, known, synopsis).value.num, limit, answer)
    ensures ok && answer != [] ==> answer[|answer| - 1].num + remaining == c.head
    ensures ok && ZERO !in synopsis ==> Acceptable(synopsis, answer)
  {
    answer, remaining := [], 0;
    if c.head == 0 {
      return true, answer, remaining;
    }
    var last := ZERO;
    if !(synopsis == [] || synopsis == [ZERO]) {
      var found := FindLastKnown(c, known, synopsis);
      if found.None? {
        return false, answer, remaining;
      }
      last := found.value;
    }
    ghost var start := AtLeastOne(last.num);
    hide LastKnown;
    var num := last.num;
    while num <= c.head && |answer| < limit
      invariant |answer| <= limit && last.num <= num
      invariant num <= c.head + 1 || (num == last.num && answer == [])
      invariant |answer| == if num <= start then 0 else num - start
      invariant IdsFrom(c, start, answer)
      decreases c.head + 1 - num
    {
      if num > 0 {
        assert c.find(start + |answer|) == Some(c.find(num).value);
        answer := answer + [c.find(num).value];
      }
      num := num + 1;
    }
    IdsFromAcceptable(c, start, answer);
    AnswerGoesOn(c, last.num, limit, answer);
    if answer != [] && answer[|answer| - 1].num < c.head {
      remaining := c.head - answer[|answer| - 1].num;
    }
    if ZERO !in synopsis && synopsis != [] && answer != [] {
      ghost var k := LastKnownRecognized(c, known, synopsis);
      assert synopsis[k] == answer[0];
    }
    ok := true;
  }

  /**
    One exchange between two nodes. The request is made exactly when the extent
    can be summarised, and answered exactly when the responder finds an entry to
    start from; whatever the synopsis, an honest answer is accepted.
   */
  method Exchange(requester: Chain, reference: Id, history: Option<ForkHistory>, wanted: seq<Id>,
                  responder: Chain, known: set<Id>, limit: nat)
    returns (request: Result, answered: bool, accepted: bool, answer: seq<Id>)
    requires ChainValid(requester) && ChainValid(responder) && Consecutive(wanted)
    requires history.Some? ==> ForkValid(requester, history.value, reference)
    requires wanted != [] ==> wanted[0].num > 0
    ensures var e := ExtentOf(requester, reference, history);
      && (e.Extent? ==> SegmentValid(requester, e.segment))
      && (request.Ok? <==>
            (e.Nothing? || (e.Extent? && AllFound(requester, e.segment, ChainMarks(e.segment, |wanted|))))
              && !Overreads(e, wanted))
    ensures answered <==> request.Ok? && (responder.head == 0 || AnswerPoint(responder, known, request.ids).Some?)
    ensures accepted == answered
    ensures answered && responder.head > 0 ==>
      var start := AtLeastOne(AnswerPoint(responder, known, request.ids).value.num);
      && |answer| == AnswerSize(responder, start, limit) && IdsFrom(responder, start, answer)
      && GoesOn(responder, AnswerPoint(responder, known, request.ids).value.num, limit, answer)
  {
    hide ExtentOf, AllFound, ChainMarks, AnswerPoint, Acceptable, Summary, Seamless, GoesOn;
    answered, accepted, answer := false, false, [];
    ghost var cut;
    request, cut := CreateSynopsisForPeer(requester, reference, history, wanted);
    if request.Ok? {
      var rest;
      answered, answer, rest := GetBlockIds(responder, known, request.ids, limit);
      if answered {
        accepted := CheckAnswer(request.ids, answer);
      }
    }
  }
}
