/** The download window in every reachable state: its limits, that no height is lost, and that
    the block needed next can always be requested. */
module DownloadTheorems {
  import opened Basics
  import opened Types
  import opened DownloadSpec

  // ---------- Invariants ----------

  ghost predicate Distinct(chain: seq<Hash>) {
    forall i, j :: 0 <= i < j < |chain| ==> chain[i] != chain[j]
  }

  /** Requests are for blocks of the chain, under the right height. */
  ghost predicate RequestsOk(inFlight: Requests, chain: seq<Hash>) {
    forall h :: h in inFlight ==> inFlight[h].height < |chain| && chain[inFlight[h].height] == h
  }

  /** Waiting blocks belong to the chain, at heights from `low` on. */
  ghost predicate WaitingOk(pending: map<nat, Hash>, low: nat, chain: seq<Hash>) {
    forall k :: k in pending ==> low <= k < |chain| && pending[k] == chain[k]
  }

  ghost predicate PeerLimits(inFlight: Requests) {
    forall p :: |OfPeer(inFlight, p)| <= PER_PEER_LIMIT
  }

  /** Requests and waiting blocks belong to the chain; the limits hold. */
  ghost predicate Bounded(d: Window, chain: seq<Hash>) {
    && RequestsOk(d.inFlight, chain) && WaitingOk(d.pending, d.nextConnect + 1, chain)
    && |d.inFlight| <= WINDOW_SIZE && PeerLimits(d.inFlight)
    && |d.inFlight| + |d.pending| <= MAX_PENDING_BLOCKS
    && d.nextHeight <= |chain| && d.nextConnect <= |chain| && Distinct(chain)
  }

  /** No height between the next to connect and the next to request is forgotten. */
  ghost predicate Covered(d: Window, chain: seq<Hash>) {
    forall k :: d.nextConnect <= k < d.nextHeight && k < |chain| ==> Have(d, chain, k)
  }

  /** Requests above the block needed next. */
  function Ahead(d: Window): set<Hash> {
    set h | h in d.inFlight && d.inFlight[h].height > d.nextConnect
  }

  /** Unless the block needed next is on disk, one place is left for it. */
  ghost predicate PlaceLeft(d: Window, chain: seq<Hash>) {
    |Ahead(d)| + |d.pending| < MAX_PENDING_BLOCKS || (d.nextConnect < |chain| && chain[d.nextConnect] in d.stored)
  }

  // ---------- Counting ----------

  lemma ProperSubsetSize<T>(a: set<T>, b: set<T>, x: T)
    requires a <= b && x in b && x !in a
    ensures |a| < |b|
  {
    SubsetSize(a, b - {x});
  }

  lemma InsertCount(m: Requests, h: Hash, r: Req, p: Peer)
    ensures |m[h := r]| <= |m| + 1
    ensures |OfPeer(m[h := r], p)| <= |OfPeer(m, p)| + if r.peer == p then 1 else 0
  {
    var bigger := m[h := r];
    assert bigger.Keys == m.Keys + {h};
    SubsetSize(m.Keys + {h}, m.Keys + {h});
    var extra := if r.peer == p then {h} else {};
    SubsetSize(OfPeer(bigger, p), OfPeer(m, p) + extra);
  }

  lemma RemoveCount(m: Requests, gone: set<Hash>, p: Peer)
    ensures |m - gone| <= |m| && |OfPeer(m - gone, p)| <= |OfPeer(m, p)|
  {
    SubsetSize((m - gone).Keys, m.Keys);
    SubsetSize(OfPeer(m - gone, p), OfPeer(m, p));
  }

  lemma RemoveOne(m: Requests, h: Hash)
    requires h in m
    ensures |m - {h}| == |m| - 1
  {
    assert (m - {h}).Keys == m.Keys - {h};
  }

  // ---------- The scan ----------

  ghost predicate Ascending(xs: seq<nat>, lo: nat, hi: nat) {
    && (forall i :: 0 <= i < |xs| ==> lo <= xs[i] < hi)
    && forall i, j :: 0 <= i < j < |xs| ==> xs[i] < xs[j]
  }

  /** The scan finds exactly the heights that are missing in the range it passes. */
  lemma {:induction false} ScanFacts(d: Window, chain: seq<Hash>, next: nat, free: nat)
    requires next <= |chain|
    ensures var s := Scan(d, chain, next, free);
            && next <= s.next <= |chain| && |s.heights| <= free && Ascending(s.heights, next, s.next)
            && (forall k :: next <= k < s.next ==> (k in s.heights <==> !Have(d, chain, k)))
            && (|s.heights| < free ==> s.next == |chain|)
    decreases |chain| - next
  {
    if free > 0 && next < |chain| {
      if Have(d, chain, next) {
        ScanFacts(d, chain, next + 1, free);
      } else {
        ScanFacts(d, chain, next + 1, free - 1);
      }
    }
  }

  // ---------- Giving out requests ----------

  lemma {:induction false} RepeatCount(p: Peer, n: nat, q: Peer)
    ensures multiset(Repeat(p, n))[q] == if p == q then n else 0
    decreases n
  {
    if n > 0 {
      RepeatCount(p, n - 1, q);
      assert Repeat(p, n) == Repeat(p, n - 1) + [p];
    }
  }

  ghost predicate DistinctPeers(peers: seq<Peer>) {
    forall i, j :: 0 <= i < j < |peers| ==> peers[i] != peers[j]
  }

  /** Every peer that may be asked gets exactly the places it has room for, and no other peer any. */
  lemma {:induction false} SlotCount(inFlight: Requests, peers: seq<Peer>, excluded: set<Peer>, p: Peer)
    requires DistinctPeers(peers)
    ensures multiset(Slots(Rooms(inFlight, peers, excluded)))[p] ==
            if p in peers && p !in excluded then Less(PER_PEER_LIMIT, |OfPeer(inFlight, p)|) else 0
    decreases |peers|
  {
    if peers != [] {
      var init, last := peers[..|peers| - 1], peers[|peers| - 1];
      SlotCount(inFlight, init, excluded, p);
      var rooms, before := Rooms(inFlight, peers, excluded), Rooms(inFlight, init, excluded);
      if rooms != before {
        var free := Less(PER_PEER_LIMIT, |OfPeer(inFlight, last)|);
        assert rooms[..|rooms| - 1] == before;
        assert Slots(rooms) == Slots(before) + Repeat(last, free);
        RepeatCount(last, free, p);
        assert p == last ==> p !in init;
      }
      assert p in init ==> p in peers;
    } else {
      assert Slots([]) == [];
    }
  }

  lemma TakeCount(xs: seq<Peer>, n: nat, p: Peer)
    requires n <= |xs|
    ensures multiset(xs[..n])[p] <= multiset(xs)[p]
  {
    assert xs == xs[..n] + xs[n..];
  }

  lemma {:induction false} CommitCount(inFlight: Requests, chain: seq<Hash>, heights: seq<nat>, peers: seq<Peer>,
      failing: set<Peer>, p: Peer)
    requires |peers| <= |heights| && InChain(chain, heights)
    ensures var r := Commit(inFlight, chain, heights, peers, failing);
            && |r| <= |inFlight| + |peers|
            && |OfPeer(r, p)| <= |OfPeer(inFlight, p)| + multiset(peers)[p]
            && ((exists i :: 0 <= i < |peers| && peers[i] in failing) ==> |r| < |inFlight| + |peers|)
    decreases |peers|
  {
    if peers != [] {
      var i := |peers| - 1;
      var init := peers[..i];
      assert peers == init + [peers[i]];
      CommitCount(inFlight, chain, heights, init, failing, p);
      var base := Commit(inFlight, chain, heights, init, failing);
      InsertCount(base, chain[heights[i]], Req(peers[i], heights[i]), p);
      forall j | 0 <= j < i && peers[j] in failing
        ensures init[j] in failing
      {
      }
    }
  }

  ghost predicate Asked(chain: seq<Hash>, heights: seq<nat>, peers: seq<Peer>, h: Hash, r: Req) {
    exists i :: 0 <= i < |peers| && i < |heights| && r == Req(peers[i], heights[i]) && heights[i] < |chain| && chain[heights[i]] == h
  }

  /** Afterwards a hash is in flight if it was, or if its request was sent. */
  lemma {:induction false} CommitFacts(inFlight: Requests, chain: seq<Hash>, heights: seq<nat>, peers: seq<Peer>,
      failing: set<Peer>)
    requires |peers| <= |heights| && InChain(chain, heights)
    ensures var r := Commit(inFlight, chain, heights, peers, failing);
            && (forall h :: h in r ==> (h in inFlight && r[h] == inFlight[h]) || Asked(chain, heights, peers, h, r[h]))
            && (forall h :: h in inFlight ==> h in r)
            && (forall i :: 0 <= i < |peers| && peers[i] !in failing ==> chain[heights[i]] in r)
    decreases |peers|
  {
    if peers != [] {
      var i := |peers| - 1;
      var init := peers[..i];
      CommitFacts(inFlight, chain, heights, init, failing);
      var r := Commit(inFlight, chain, heights, peers, failing);
      var base := Commit(inFlight, chain, heights, init, failing);
      forall h | h in r && !(h in inFlight && r[h] == inFlight[h])
        ensures Asked(chain, heights, peers, h, r[h])
      {
        if h in base && r[h] == base[h] {
          var j :| 0 <= j < |init| && chain[heights[j]] == h && base[h] == Req(init[j], heights[j]);
          assert peers[j] == init[j];
        } else {
          assert chain[heights[i]] == h;
        }
      }
      forall j | 0 <= j < |peers| && peers[j] !in failing
        ensures chain[heights[j]] in r
      {
        if j < i {
          assert init[j] == peers[j];
        }
      }
    }
  }

  lemma {:induction false} FailedNextFacts(next: nat, heights: seq<nat>, peers: seq<Peer>, failing: set<Peer>)
    requires |peers| <= |heights|
    ensures var r := FailedNext(next, heights, peers, failing);
            r <= next && forall i :: 0 <= i < |peers| && peers[i] in failing ==> r <= heights[i]
    decreases |peers|
  {
    if peers != [] {
      var init := peers[..|peers| - 1];
      FailedNextFacts(next, heights, init, failing);
      forall i | 0 <= i < |init| && peers[i] in failing
        ensures FailedNext(next, heights, init, failing) <= heights[i]
      {
        assert init[i] in failing;
      }
    }
  }

  // ---------- Filling ----------

  /** Some connected peer that is not excluded can take another request. */
  ghost predicate HasRoom(d: Window, peers: seq<Peer>, excluded: set<Peer>) {
    exists p :: p in peers && p !in excluded && |OfPeer(d.inFlight, p)| < PER_PEER_LIMIT
  }

  lemma {:induction false} RoomsIff(d: Window, peers: seq<Peer>, excluded: set<Peer>)
    ensures Rooms(d.inFlight, peers, excluded) != [] <==> HasRoom(d, peers, excluded)
    ensures forall i :: 0 <= i < |Rooms(d.inFlight, peers, excluded)| ==> Rooms(d.inFlight, peers, excluded)[i].free > 0
    decreases |peers|
  {
    if peers != [] {
      var init, last := peers[..|peers| - 1], peers[|peers| - 1];
      RoomsIff(d, init, excluded);
      assert forall p :: p in peers <==> p in init || p == last;
    }
  }

  lemma SomeSlot(rooms: seq<Room>)
    requires rooms != [] && forall i :: 0 <= i < |rooms| ==> rooms[i].free > 0
    ensures |Slots(rooms)| > 0
  {
  }

  /** What a scan collects and hands out. */
  lemma AllotFacts(d: Window, peers: seq<Peer>, excluded: set<Peer>, n: nat, p: Peer)
    requires DistinctPeers(peers) && |OfPeer(d.inFlight, p)| <= PER_PEER_LIMIT
    ensures |Allot(Rooms(d.inFlight, peers, excluded), n)| <= n
    ensures |OfPeer(d.inFlight, p)| + multiset(Allot(Rooms(d.inFlight, peers, excluded), n))[p] <= PER_PEER_LIMIT
  {
    hide Slots, Rooms, OfPeer;
    var slots := Slots(Rooms(d.inFlight, peers, excluded));
    SlotCount(d.inFlight, peers, excluded, p);
    TakeCount(slots, Min(n, |slots|), p);
  }

  /** Filling keeps every limit. */
  lemma {:induction false} FillBounded(d: Window, chain: seq<Hash>, peers: seq<Peer>, excluded: set<Peer>,
      failing: set<Peer>)
    requires Bounded(d, chain) && DistinctPeers(peers)
    ensures Bounded(Fill(d, chain, peers, excluded, failing), chain)
  {
    hide Scan, Rooms, Allot, Commit, FailedNext, OfPeer, Have;
    if Scans(d, chain, peers) {
      var free := FreeSlots(d);
      var s := Scan(d, chain, d.nextHeight, free);
      ScanFacts(d, chain, d.nextHeight, free);
      var rooms := Rooms(d.inFlight, peers, excluded);
      if s.heights == [] || rooms == [] {
        assert Bounded(d.(nextHeight := s.next), chain);
      } else {
        ScanInChain(d, chain, d.nextHeight, free);
        var given := Allot(rooms, |s.heights|);
        AllotFacts(d, peers, excluded, |s.heights|, 0);
        forall p
          ensures |OfPeer(d.inFlight, p)| + multiset(given)[p] <= PER_PEER_LIMIT
        {
          AllotFacts(d, peers, excluded, |s.heights|, p);
        }
        AssignedBounded(d, chain, s, given, failing);
      }
    }
  }

  lemma CommitRequests(inFlight: Requests, chain: seq<Hash>, heights: seq<nat>, peers: seq<Peer>, failing: set<Peer>)
    requires |peers| <= |heights| && InChain(chain, heights) && RequestsOk(inFlight, chain)
    ensures RequestsOk(Commit(inFlight, chain, heights, peers, failing), chain)
  {
    hide Commit;
    CommitFacts(inFlight, chain, heights, peers, failing);
  }

  lemma CommitLimits(inFlight: Requests, chain: seq<Hash>, heights: seq<nat>, peers: seq<Peer>, failing: set<Peer>)
    requires |peers| <= |heights| && InChain(chain, heights)
    requires forall p :: |OfPeer(inFlight, p)| + multiset(peers)[p] <= PER_PEER_LIMIT
    ensures PeerLimits(Commit(inFlight, chain, heights, peers, failing))
    ensures |Commit(inFlight, chain, heights, peers, failing)| <= |inFlight| + |peers|
  {
    hide Commit, OfPeer;
    CommitCount(inFlight, chain, heights, peers, failing, 0);
    forall p
      ensures |OfPeer(Commit(inFlight, chain, heights, peers, failing), p)| <= PER_PEER_LIMIT
    {
      CommitCount(inFlight, chain, heights, peers, failing, p);
    }
  }

  lemma AssignedBounded(d: Window, chain: seq<Hash>, s: Scanned, given: seq<Peer>, failing: set<Peer>)
    requires Bounded(d, chain) && InChain(chain, s.heights) && s.next <= |chain|
    requires |given| <= |s.heights| <= FreeSlots(d)
    requires forall p :: |OfPeer(d.inFlight, p)| + multiset(given)[p] <= PER_PEER_LIMIT
    ensures Bounded(Assigned(d, chain, s, given, failing), chain)
  {
    hide Commit, FailedNext, OfPeer, RequestsOk, WaitingOk, PeerLimits, Distinct, InChain;
    CommitRequests(d.inFlight, chain, s.heights, given, failing);
    CommitLimits(d.inFlight, chain, s.heights, given, failing);
    FailedNextFacts(if |given| < |s.heights| then Min(s.next, s.heights[|given|]) else s.next, s.heights, given, failing);
  }

  /** The scan collects a height at or above the one needed next although no peer can be asked. */
  ghost predicate Loses(d: Window, chain: seq<Hash>, peers: seq<Peer>, excluded: set<Peer>) {
    && Scans(d, chain, peers) && !HasRoom(d, peers, excluded)
    && exists k :: k in Scan(d, chain, d.nextHeight, FreeSlots(d)).heights && k >= d.nextConnect
  }

  /** Filling forgets a height exactly when it collects one and finds no peer with room. */
  lemma {:induction false} FillCoveredIff(d: Window, chain: seq<Hash>, peers: seq<Peer>, excluded: set<Peer>,
      failing: set<Peer>)
    requires Bounded(d, chain) && Covered(d, chain)
    ensures Covered(Fill(d, chain, peers, excluded, failing), chain) <==> !Loses(d, chain, peers, excluded)
  {
    hide Scan, Rooms, Allot, Commit, FailedNext, OfPeer, Have, HasRoom, Bounded;
    NextBound(d, chain);
    RoomsIff(d, peers, excluded);
    if Scans(d, chain, peers) {
      var free := FreeSlots(d);
      var s := Scan(d, chain, d.nextHeight, free);
      ScanFacts(d, chain, d.nextHeight, free);
      var rooms := Rooms(d.inFlight, peers, excluded);
      if s.heights == [] || rooms == [] {
        MovedCovered(d, chain, s);
      } else {
        ScanInChain(d, chain, d.nextHeight, free);
        AllotShort(rooms, |s.heights|);
        AssignedCovered(d, chain, s, Allot(rooms, |s.heights|), failing);
      }
    }
  }

  lemma NextBound(d: Window, chain: seq<Hash>)
    requires Bounded(d, chain)
    ensures d.nextHeight <= |chain| && d.nextConnect <= |chain|
  {
  }

  /** A faithful scan result. */
  ghost predicate ScanOk(d: Window, chain: seq<Hash>, s: Scanned) {
    && d.nextHeight <= s.next <= |chain| && Ascending(s.heights, d.nextHeight, s.next)
    && forall k :: d.nextHeight <= k < s.next ==> (k in s.heights <==> !Have(d, chain, k))
  }

  lemma MovedCovered(d: Window, chain: seq<Hash>, s: Scanned)
    requires Covered(d, chain) && ScanOk(d, chain, s)
    ensures Covered(d.(nextHeight := s.next), chain) <==> !exists k :: k in s.heights && k >= d.nextConnect
  {
    var r := d.(nextHeight := s.next);
    forall k | 0 <= k < |chain|
      ensures Have(r, chain, k) <==> Have(d, chain, k)
    {
    }
  }

  lemma AssignedCovered(d: Window, chain: seq<Hash>, s: Scanned, given: seq<Peer>, failing: set<Peer>)
    requires Covered(d, chain) && ScanOk(d, chain, s) && |given| <= |s.heights| && InChain(chain, s.heights)
    ensures Covered(Assigned(d, chain, s, given, failing), chain)
  {
    hide Commit, FailedNext;
    var r := Assigned(d, chain, s, given, failing);
    var next := if |given| < |s.heights| then Min(s.next, s.heights[|given|]) else s.next;
    CommitFacts(d.inFlight, chain, s.heights, given, failing);
    FailedNextFacts(next, s.heights, given, failing);
    forall k | d.nextConnect <= k < r.nextHeight && k < |chain|
      ensures Have(r, chain, k)
    {
      if !Have(d, chain, k) {
        assert k in s.heights;
        var i :| 0 <= i < |s.heights| && s.heights[i] == k;
        assert i < |given|;
        assert given[i] !in failing;
      }
    }
  }

  // ---------- A place for the block needed next ----------

  lemma AheadSmall(d: Window, chain: seq<Hash>)
    requires Bounded(d, chain) && d.nextConnect < |chain| && chain[d.nextConnect] in d.inFlight
    ensures |Ahead(d)| < |d.inFlight|
  {
    var h := chain[d.nextConnect];
    assert d.inFlight[h].height == d.nextConnect;
    ProperSubsetSize(Ahead(d), d.inFlight.Keys, h);
  }

  lemma AheadBound(d: Window)
    ensures |Ahead(d)| <= |d.inFlight|
  {
    SubsetSize(Ahead(d), d.inFlight.Keys);
  }

  /** At the end of the chain nothing is ahead. */
  lemma NothingAhead(d: Window, chain: seq<Hash>)
    requires Bounded(d, chain) && d.nextConnect == |chain|
    ensures Ahead(d) == {} && d.pending == map[]
  {
    assert d.pending.Keys == {};
  }

  /** Filling leaves a place for the block needed next. */
  lemma {:induction false} FillLeavesPlace(d: Window, chain: seq<Hash>, peers: seq<Peer>, excluded: set<Peer>,
      failing: set<Peer>)
    requires Bounded(d, chain) && Covered(d, chain) && PlaceLeft(d, chain) && DistinctPeers(peers)
    ensures PlaceLeft(Fill(d, chain, peers, excluded, failing), chain)
  {
    hide Scan, Rooms, Allot, Commit, FailedNext, OfPeer, Have, Bounded, Assigned;
    NextBound(d, chain);
    if Scans(d, chain, peers) {
      var free := FreeSlots(d);
      var s := Scan(d, chain, d.nextHeight, free);
      ScanFacts(d, chain, d.nextHeight, free);
      var rooms := Rooms(d.inFlight, peers, excluded);
      if s.heights == [] || rooms == [] {
        assert Ahead(d.(nextHeight := s.next)) == Ahead(d);
      } else {
        ScanInChain(d, chain, d.nextHeight, free);
        var given := Allot(rooms, |s.heights|);
        FillBounded(d, chain, peers, excluded, failing);
        AllotShort(rooms, |s.heights|);
        AssignedLeavesPlace(d, chain, s, given, failing);
      }
    }
  }

  lemma AllotShort(rooms: seq<Room>, n: nat)
    ensures |Allot(rooms, n)| <= n
  {
  }

  lemma AssignedLeavesPlace(d: Window, chain: seq<Hash>, s: Scanned, given: seq<Peer>, failing: set<Peer>)
    requires Bounded(d, chain) && Covered(d, chain) && PlaceLeft(d, chain) && ScanOk(d, chain, s)
    requires |given| <= |s.heights| <= FreeSlots(d) && InChain(chain, s.heights)
    requires Bounded(Assigned(d, chain, s, given, failing), chain)
    ensures PlaceLeft(Assigned(d, chain, s, given, failing), chain)
  {
    hide Commit, FailedNext, OfPeer;
    var r, c := Assigned(d, chain, s, given, failing), d.nextConnect;
    if c == |chain| {
      NothingAhead(r, chain);
    } else if chain[c] !in d.stored {
      if chain[c] in r.inFlight {
        AheadSmall(r, chain);
      } else {
        CommitFacts(d.inFlight, chain, s.heights, given, failing);
        assert c !in d.pending;
        assert !Have(d, chain, c);
        assert d.nextHeight <= c;
        if c < s.next {
          NeededSkipped(d, chain, s, given, failing);
          AheadBound(r);
        } else {
          NothingNewAhead(d, chain, s, given, failing);
        }
      }
    }
  }

  /** The block needed next was collected but not sent: its place stays free. */
  lemma NeededSkipped(d: Window, chain: seq<Hash>, s: Scanned, given: seq<Peer>, failing: set<Peer>)
    requires d.nextConnect in s.heights && d.nextConnect < |chain|
    requires |given| <= |s.heights| <= FreeSlots(d) && InChain(chain, s.heights)
    requires chain[d.nextConnect] !in Commit(d.inFlight, chain, s.heights, given, failing)
    requires |d.inFlight| + |d.pending| <= MAX_PENDING_BLOCKS
    ensures |Commit(d.inFlight, chain, s.heights, given, failing)| + |d.pending| < MAX_PENDING_BLOCKS
  {
    hide Commit;
    CommitFacts(d.inFlight, chain, s.heights, given, failing);
    CommitCount(d.inFlight, chain, s.heights, given, failing, 0);
    var i :| 0 <= i < |s.heights| && s.heights[i] == d.nextConnect;
    if i < |given| {
      assert given[i] in failing;
    }
  }

  /** The scan stopped below the block needed next: nothing new is ahead of it. */
  lemma NothingNewAhead(d: Window, chain: seq<Hash>, s: Scanned, given: seq<Peer>, failing: set<Peer>)
    requires Ascending(s.heights, d.nextHeight, s.next) && s.next <= d.nextConnect
    requires |given| <= |s.heights| && InChain(chain, s.heights)
    ensures |Ahead(Assigned(d, chain, s, given, failing))| <= |Ahead(d)|
  {
    hide Commit, FailedNext;
    CommitFacts(d.inFlight, chain, s.heights, given, failing);
    SubsetSize(Ahead(Assigned(d, chain, s, given, failing)), Ahead(d));
  }
}
