/** Progress: received blocks are connected as far as they reach, and none is thrown away. */
module DownloadProgress {
  import opened Basics
  import opened Types
  import opened DownloadSpec
  import opened DownloadTheorems
  import opened DownloadRuns

  // ---------- One block ----------

  /** The block waiting at height `k` connects. */
  predicate Ready(d: Window, connects: Hash -> bool, k: nat) {
    k in d.pending && connects(d.pending[k])
  }

  /** The waiting blocks from the next one up to below `k`. */
  function WaitingBelow(d: Window, k: nat): set<Hash> {
    set j | j in d.pending && d.nextConnect <= j < k :: d.pending[j]
  }

  /** Draining connects and stores exactly the unbroken row of waiting blocks that connect. It
      drops the block that fails, if that is what ended the row, and asks for it again. */
  ghost predicate Drained(d: Window, connects: Hash -> bool, r: Window) {
    var k := r.nextConnect;
    && d.nextConnect <= k && (forall j :: d.nextConnect <= j < k ==> Ready(d, connects, j)) && !Ready(d, connects, k)
    && r.stored == d.stored + WaitingBelow(d, k) && r.inFlight == d.inFlight
    && (forall j :: j in r.pending <==> j in d.pending && !(d.nextConnect <= j <= k))
    && (forall j :: j in r.pending ==> r.pending[j] == d.pending[j])
    && r.nextHeight == if k in d.pending then Min(d.nextHeight, k) else d.nextHeight
  }

  lemma {:induction false} DrainIs(d: Window, connects: Hash -> bool)
    ensures Drained(d, connects, Drain(d, connects))
    decreases |d.pending|
  {
    if d.nextConnect !in d.pending {
      assert WaitingBelow(d, d.nextConnect) == {};
    } else {
      var hash := d.pending[d.nextConnect];
      var rest := d.(pending := d.pending - {d.nextConnect});
      if connects(hash) {
        RemovePending(d.pending, d.nextConnect);
        var c := Connected(rest, hash);
        DrainIs(c, connects);
        DrainedStep(d, connects, Drain(c, connects));
      } else {
        assert WaitingBelow(d, d.nextConnect) == {};
      }
    }
  }

  lemma DrainedStep(d: Window, connects: Hash -> bool, r: Window)
    requires Ready(d, connects, d.nextConnect)
    requires Drained(Connected(d.(pending := d.pending - {d.nextConnect}), d.pending[d.nextConnect]), connects, r)
    ensures Drained(d, connects, r)
  {
    var hash := d.pending[d.nextConnect];
    var c := Connected(d.(pending := d.pending - {d.nextConnect}), hash);
    var k := r.nextConnect;
    forall j | d.nextConnect <= j < k
      ensures Ready(d, connects, j)
    {
      assert j > d.nextConnect ==> Ready(c, connects, j);
    }
    assert Ready(c, connects, k) <==> Ready(d, connects, k);
    assert WaitingBelow(d, k) == {hash} + WaitingBelow(c, k) by {
      assert d.nextConnect in d.pending && d.nextConnect < k;
      forall x | x in WaitingBelow(c, k)
        ensures x in WaitingBelow(d, k)
      {
        var j :| j in c.pending && c.nextConnect <= j < k && c.pending[j] == x;
        assert d.pending[j] == x;
      }
      forall x | x in WaitingBelow(d, k)
        ensures x in {hash} + WaitingBelow(c, k)
      {
        var j :| j in d.pending && d.nextConnect <= j < k && d.pending[j] == x;
        assert j > d.nextConnect ==> c.pending[j] == x;
      }
    }
  }

  /** A requested block that is valid is never lost. The one needed next, if it connects, is
      stored and everything waiting behind it follows; one above waits at its height; one below
      is stored. Only if it cannot be used it is asked for again. */
  lemma {:induction false} ReceiveProgress(d: Window, chain: seq<Hash>, hash: Hash, valid: bool, connects: Hash -> bool)
    requires Bounded(d, chain) && hash in d.inFlight
    ensures var r, height, rest := Receive(d, hash, valid, connects), d.inFlight[hash].height,
                                   d.(inFlight := d.inFlight - {hash});
            if valid && height == d.nextConnect && connects(hash) then
              Drained(rest.(stored := d.stored + {hash}, nextConnect := height + 1), connects, r)
            else if valid && height > d.nextConnect then r == rest.(pending := d.pending[height := hash])
            else if valid && height < d.nextConnect then r == rest.(stored := d.stored + {hash})
            else r == rest.(nextHeight := Min(d.nextHeight, height))
  {
    hide Bounded, Drained, Drain;
    NeverDiscards(d, chain, hash);
    DrainIs(Connected(d.(inFlight := d.inFlight - {hash}), hash), connects);
  }

  // ---------- Requests ----------

  /** Requests for different blocks that are not in flight yet, all of them sent. */
  lemma {:induction false} CommitExact(inFlight: Requests, chain: seq<Hash>, heights: seq<nat>, peers: seq<Peer>,
      p: Peer)
    requires |peers| <= |heights| && Ascending(heights, 0, |chain|) && InChain(chain, heights) && Distinct(chain)
    requires forall i :: 0 <= i < |heights| ==> chain[heights[i]] !in inFlight
    ensures var r := Commit(inFlight, chain, heights, peers, {});
            && (forall h :: h in r <==> h in inFlight || exists i :: 0 <= i < |peers| && chain[heights[i]] == h)
            && |r| == |inFlight| + |peers|
            && |OfPeer(r, p)| == |OfPeer(inFlight, p)| + multiset(peers)[p]
    decreases |peers|
  {
    hide OfPeer, Distinct, Ascending;
    if peers != [] {
      var i := |peers| - 1;
      var init := peers[..i];
      assert peers == init + [peers[i]];
      CommitExact(inFlight, chain, heights, init, p);
      var base, h := Commit(inFlight, chain, heights, init, {}), chain[heights[i]];
      forall j | 0 <= j < i
        ensures chain[heights[j]] != h
      {
        DifferentBlocks(chain, heights, j, i);
      }
      InsertExact(base, h, Req(peers[i], heights[i]), p);
    }
  }

  lemma DifferentBlocks(chain: seq<Hash>, heights: seq<nat>, j: nat, i: nat)
    requires Ascending(heights, 0, |chain|) && Distinct(chain) && j < i < |heights|
    ensures chain[heights[j]] != chain[heights[i]]
  {
    assert heights[j] < heights[i];
  }

  lemma InsertExact(m: Requests, h: Hash, r: Req, p: Peer)
    requires h !in m
    ensures |m[h := r]| == |m| + 1
    ensures |OfPeer(m[h := r], p)| == |OfPeer(m, p)| + if r.peer == p then 1 else 0
  {
    assert m[h := r].Keys == m.Keys + {h};
    assert OfPeer(m[h := r], p) == if r.peer == p then OfPeer(m, p) + {h} else OfPeer(m, p);
  }

  /** With enough free places, or an empty window, and all messages sent, a fill requests
      exactly the missing blocks it passes, lowest first. It stops only at the end of the chain,
      when the free places are used up, or when every peer that may be asked has 48 requests. */
  lemma {:induction false} FillRequests(d: Window, chain: seq<Hash>, peers: seq<Peer>, excluded: set<Peer>)
    requires Bounded(d, chain) && DistinctPeers(peers) && HasRoom(d, peers, excluded)
    requires FreeSlots(d) >= 128 || d.inFlight == map[]
    ensures var r := Fill(d, chain, peers, excluded, {});
            && r == d.(inFlight := r.inFlight, nextHeight := r.nextHeight) && d.nextHeight <= r.nextHeight <= |chain|
            && (forall k :: 0 <= k < |chain| ==>
                  (chain[k] in r.inFlight <==>
                     chain[k] in d.inFlight || (d.nextHeight <= k < r.nextHeight && !Have(d, chain, k))))
            && (|| r.nextHeight == |chain|
                || |r.inFlight| == |d.inFlight| + FreeSlots(d)
                || forall p :: p in peers && p !in excluded ==> |OfPeer(r.inFlight, p)| == 48)
  {
    hide Scan, Rooms, Allot, Commit, OfPeer, FreeSlots, Bounded, HasRoom, Have, Assigned, FailedNext, Distinct;
    var free := FreeSlots(d);
    NextBound(d, chain);
    RoomsIff(d, peers, excluded);
    if d.nextHeight < |chain| {
      var s := Scan(d, chain, d.nextHeight, free);
      ScanFacts(d, chain, d.nextHeight, free);
      ScanInChain(d, chain, d.nextHeight, free);
      if s.heights == [] {
        NothingFound(d, chain, s);
      } else {
        AllotIs(d, chain, peers, excluded, |s.heights|);
        AssignedIs(d, chain, s, Allot(Rooms(d.inFlight, peers, excluded), |s.heights|), peers, excluded);
      }
    }
  }

  /** Places run out only when every peer's are used. */
  lemma AllotIs(d: Window, chain: seq<Hash>, peers: seq<Peer>, excluded: set<Peer>, n: nat)
    requires Bounded(d, chain) && DistinctPeers(peers)
    ensures var given := Allot(Rooms(d.inFlight, peers, excluded), n);
            && |given| <= n
            && (|given| < n ==> forall p :: p in peers && p !in excluded ==>
                  |OfPeer(d.inFlight, p)| + multiset(given)[p] == 48)
  {
    hide Rooms, Slots, OfPeer, Bounded;
    var slots := Slots(Rooms(d.inFlight, peers, excluded));
    assert slots[..|slots|] == slots;
    forall p | p in peers && p !in excluded
      ensures |OfPeer(d.inFlight, p)| + multiset(slots)[p] == 48
    {
      SlotCount(d.inFlight, peers, excluded, p);
      PeerWithin(d, chain, p);
    }
  }

  lemma AssignedIs(d: Window, chain: seq<Hash>, s: Scanned, given: seq<Peer>, peers: seq<Peer>, excluded: set<Peer>)
    requires Bounded(d, chain) && ScanOk(d, chain, s) && |given| <= |s.heights| && InChain(chain, s.heights)
    requires |given| < |s.heights| ==> forall p :: p in peers && p !in excluded ==>
               |OfPeer(d.inFlight, p)| + multiset(given)[p] == 48
    ensures var r := Assigned(d, chain, s, given, {});
            && r == d.(inFlight := r.inFlight, nextHeight := r.nextHeight) && d.nextHeight <= r.nextHeight <= |chain|
            && (forall k :: 0 <= k < |chain| ==>
                  (chain[k] in r.inFlight <==>
                     chain[k] in d.inFlight || (d.nextHeight <= k < r.nextHeight && !Have(d, chain, k))))
            && (if |given| < |s.heights| then
                  forall p :: p in peers && p !in excluded ==> |OfPeer(r.inFlight, p)| == 48
                else r.nextHeight == s.next && |r.inFlight| == |d.inFlight| + |s.heights|)
  {
    hide Commit, OfPeer, FailedNext, PeerLimits, RequestsOk, WaitingOk;
    NoneFails(if |given| < |s.heights| then Min(s.next, s.heights[|given|]) else s.next, s.heights, given);
    forall i | 0 <= i < |s.heights|
      ensures chain[s.heights[i]] !in d.inFlight
    {
      assert s.heights[i] in s.heights;
      assert !Have(d, chain, s.heights[i]);
    }
    GivenIff(d, chain, s, given);
    CommitExact(d.inFlight, chain, s.heights, given, 0);
    forall p | p in peers && p !in excluded
      ensures |given| < |s.heights| ==> |OfPeer(Commit(d.inFlight, chain, s.heights, given, {}), p)| == 48
    {
      CommitExact(d.inFlight, chain, s.heights, given, p);
    }
  }

  lemma PeerWithin(d: Window, chain: seq<Hash>, p: Peer)
    requires Bounded(d, chain)
    ensures |OfPeer(d.inFlight, p)| <= PER_PEER_LIMIT
  {
  }

  lemma NothingFound(d: Window, chain: seq<Hash>, s: Scanned)
    requires ScanOk(d, chain, s) && s.heights == []
    ensures forall k :: d.nextHeight <= k < s.next ==> Have(d, chain, k)
  {
  }

  lemma {:induction false} NoneFails(next: nat, heights: seq<nat>, peers: seq<Peer>)
    requires |peers| <= |heights|
    ensures FailedNext(next, heights, peers, {}) == next
    decreases |peers|
  {
    if peers != [] {
      NoneFails(next, heights, peers[..|peers| - 1]);
    }
  }

  /** The heights given out are the missing ones below where the fill stops. */
  lemma GivenIff(d: Window, chain: seq<Hash>, s: Scanned, given: seq<Peer>)
    requires ScanOk(d, chain, s) && |given| <= |s.heights| && Distinct(chain) && InChain(chain, s.heights)
    ensures var next := if |given| < |s.heights| then Min(s.next, s.heights[|given|]) else s.next;
            forall k :: 0 <= k < |chain| ==>
              ((exists i :: 0 <= i < |given| && chain[s.heights[i]] == chain[k]) <==>
                 d.nextHeight <= k < next && !Have(d, chain, k))
  {
    var next := if |given| < |s.heights| then Min(s.next, s.heights[|given|]) else s.next;
    forall k | 0 <= k < |chain|
      ensures (exists i :: 0 <= i < |given| && chain[s.heights[i]] == chain[k]) <==>
              d.nextHeight <= k < next && !Have(d, chain, k)
    {
      if i :| 0 <= i < |given| && chain[s.heights[i]] == chain[k] {
        assert s.heights[i] == k && k in s.heights;
      }
      if d.nextHeight <= k < next && !Have(d, chain, k) {
        assert k in s.heights;
        var i :| 0 <= i < |s.heights| && s.heights[i] == k;
        assert i < |given|;
      }
    }
  }

  // ---------- Dropped requests ----------

  /** A timeout drops exactly the stale requests and those of struck-out peers, a disconnect
      exactly the peer's, and the next fill starts no higher than the lowest of them. */
  lemma {:induction false} DropsExactly(d: Window, stale: set<Hash>, struck: set<Peer>, peer: Peer)
    ensures var r := TimeOut(d, stale, struck);
            && (forall h :: h in r.inFlight <==> h in d.inFlight && h !in stale && d.inFlight[h].peer !in struck)
            && (forall h :: h in r.inFlight ==> r.inFlight[h] == d.inFlight[h])
            && forall h :: h in d.inFlight && h !in r.inFlight ==> r.nextHeight <= d.inFlight[h].height
    ensures var r := PeerGone(d, peer);
            && (forall h :: h in r.inFlight <==> h in d.inFlight && d.inFlight[h].peer != peer)
            && (forall h :: h in r.inFlight ==> r.inFlight[h] == d.inFlight[h])
            && forall h :: h in d.inFlight && h !in r.inFlight ==> r.nextHeight <= d.inFlight[h].height
  {
    hide Lowest;
    var gone, mine := Expired(d.inFlight, stale, struck), OfPeer(d.inFlight, peer);
    assert IsLowest(d.inFlight, gone, d.nextHeight, Lowest(d.inFlight, gone, d.nextHeight));
    assert IsLowest(d.inFlight, mine, d.nextHeight, Lowest(d.inFlight, mine, d.nextHeight));
  }

  // ---------- Runs ----------

  /** Where the last reset left the chain, and the heights received since. */
  datatype Since = Since(base: nat, got: set<nat>)

  ghost function Got(n: Node, events: seq<Event>): Since {
    if events == [] then Since(n.window.nextConnect, {})
    else
      var before, node, e := Got(n, events[..|events| - 1]), Run(n, events[..|events| - 1]), events[|events| - 1];
      match e
      case Received(hash, valid, _) =>
        if valid && hash in node.window.inFlight then before.(got := before.got + {node.window.inFlight[hash].height})
        else before
      case Reorganized(_, newTip) => Since(newTip + 1, {})
      case _ => before
  }

  /** The chain state connects the blocks of the header chain. */
  ghost predicate Sound(n: Node, e: Event) {
    e.Received? ==> forall k :: 0 <= k < |n.chain| ==> e.connects(n.chain[k])
  }

  ghost predicate SoundRun(n: Node, events: seq<Event>) {
    events == [] ||
    (SoundRun(n, events[..|events| - 1]) && Sound(Run(n, events[..|events| - 1]), events[|events| - 1]))
  }

  /** Block `k` was received and is stored. */
  ghost predicate Done(n: Node, s: Since, k: nat) {
    k in s.got && k < |n.chain| && n.chain[k] in n.window.stored
  }

  /** From the last reset on, everything received is connected or waits, everything connected
      was received and is stored, and nothing else waits. */
  ghost predicate Tracks(n: Node, s: Since) {
    var d := n.window;
    && s.base <= d.nextConnect
    && (forall k :: s.base <= k < d.nextConnect ==> Done(n, s, k))
    && (forall k :: k in d.pending && k >= d.nextConnect ==> k in s.got)
    && (forall k :: k in s.got && k >= d.nextConnect ==> k in d.pending)
  }

  lemma StepTracks(n: Node, e: Event, s: Since)
    requires Bounded(n.window, n.chain) && Possible(n, e) && Sound(n, e) && Tracks(n, s)
    ensures e.Received? && e.valid && e.hash in n.window.inFlight ==>
              Tracks(Next(n, e), s.(got := s.got + {n.window.inFlight[e.hash].height}))
    ensures e.Reorganized? ==> Tracks(Next(n, e), Since(e.newTip + 1, {}))
    ensures !e.Reorganized? && !(e.Received? && e.valid && e.hash in n.window.inFlight) ==> Tracks(Next(n, e), s)
  {
    hide Bounded, Receive, Drop, Fill, Tracks;
    match e
    case Filled(peers, excluded, failing) =>
      FillOther(n.window, n.chain, peers, excluded, failing);
      SameTracks(n, Fill(n.window, n.chain, peers, excluded, failing), s);
    case Received(hash, valid, connects) =>
      if valid && hash in n.window.inFlight {
        ReceivedTracks(n, hash, connects, s);
      } else {
        Unused(n.window, hash, valid, connects);
        SameTracks(n, Receive(n.window, hash, valid, connects), s);
      }
    case TimedOut(stale, struck) =>
      DropOther(n.window, Expired(n.window.inFlight, stale, struck));
      SameTracks(n, TimeOut(n.window, stale, struck), s);
    case Disconnected(peer) =>
      DropOther(n.window, OfPeer(n.window.inFlight, peer));
      SameTracks(n, PeerGone(n.window, peer), s);
    case Reorganized(newChain, newTip) =>
      ResetTracks(n.window, newChain, newTip);
    case NewHeaders(more) =>
      LongerTracks(n, more, s);
  }

  lemma SameTracks(n: Node, r: Window, s: Since)
    requires Tracks(n, s)
    requires r.pending == n.window.pending && r.nextConnect == n.window.nextConnect && r.stored == n.window.stored
    ensures Tracks(n.(window := r), s)
  {
    forall k | s.base <= k < n.window.nextConnect
      ensures Done(n.(window := r), s, k)
    {
      assert Done(n, s, k);
    }
  }

  lemma ResetTracks(d: Window, chain: seq<Hash>, newTip: nat)
    ensures Tracks(Node(Reset(d, newTip), chain), Since(newTip + 1, {}))
  {
    hide Tracks;
    EmptyTracks(Node(Reset(d, newTip), chain));
  }

  lemma LongerTracks(n: Node, more: seq<Hash>, s: Since)
    requires Tracks(n, s)
    ensures Tracks(n.(chain := n.chain + more), s)
  {
    forall k | s.base <= k < n.window.nextConnect
      ensures Done(n.(chain := n.chain + more), s, k)
    {
      assert Done(n, s, k);
    }
  }

  lemma Unused(d: Window, hash: Hash, valid: bool, connects: Hash -> bool)
    requires !(valid && hash in d.inFlight)
    ensures var r := Receive(d, hash, valid, connects);
            r.pending == d.pending && r.nextConnect == d.nextConnect && r.stored == d.stored
  {
  }

  lemma DropOther(d: Window, gone: set<Hash>)
    ensures Drop(d, gone).pending == d.pending && Drop(d, gone).nextConnect == d.nextConnect
    ensures Drop(d, gone).stored == d.stored
  {
  }

  lemma FillOther(d: Window, chain: seq<Hash>, peers: seq<Peer>, excluded: set<Peer>, failing: set<Peer>)
    ensures var r := Fill(d, chain, peers, excluded, failing);
            r.pending == d.pending && r.nextConnect == d.nextConnect && r.stored == d.stored
  {
  }

  lemma ReceivedTracks(n: Node, hash: Hash, connects: Hash -> bool, s: Since)
    requires Bounded(n.window, n.chain) && hash in n.window.inFlight && Tracks(n, s)
    requires forall k :: 0 <= k < |n.chain| ==> connects(n.chain[k])
    ensures Tracks(n.(window := Receive(n.window, hash, true, connects)),
                   s.(got := s.got + {n.window.inFlight[hash].height}))
  {
    hide Receive, PeerLimits, Drained, Tracks, Distinct;
    var d, height := n.window, n.window.inFlight[hash].height;
    ReceiveProgress(d, n.chain, hash, true, connects);
    var r := Receive(d, hash, true, connects);
    if height == d.nextConnect {
      var c := d.(inFlight := d.inFlight - {hash}, stored := d.stored + {hash}, nextConnect := height + 1);
      RowConnected(c, n.chain, connects, r);
      RowTracks(n, hash, s, r);
    } else if height > d.nextConnect {
      WaitingTracks(n, s, height, hash, r);
    } else {
      StoredTracks(n, s, height, hash, r);
    }
  }

  lemma WaitingTracks(n: Node, s: Since, height: nat, hash: Hash, r: Window)
    requires Tracks(n, s) && height > n.window.nextConnect
    requires r == n.window.(inFlight := r.inFlight, pending := n.window.pending[height := hash])
    ensures Tracks(n.(window := r), s.(got := s.got + {height}))
  {
    forall k | s.base <= k < n.window.nextConnect
      ensures Done(n.(window := r), s.(got := s.got + {height}), k)
    {
      assert Done(n, s, k);
    }
  }

  lemma StoredTracks(n: Node, s: Since, height: nat, hash: Hash, r: Window)
    requires Tracks(n, s) && height < n.window.nextConnect
    requires r == n.window.(inFlight := r.inFlight, stored := n.window.stored + {hash})
    ensures Tracks(n.(window := r), s.(got := s.got + {height}))
  {
    forall k | s.base <= k < n.window.nextConnect
      ensures Done(n.(window := r), s.(got := s.got + {height}), k)
    {
      assert Done(n, s, k);
    }
  }

  /** If all waiting blocks connect, the row ends only at a gap. */
  lemma RowConnected(c: Window, chain: seq<Hash>, connects: Hash -> bool, r: Window)
    requires Drained(c, connects, r) && WaitingOk(c.pending, c.nextConnect, chain)
    requires forall k :: 0 <= k < |chain| ==> connects(chain[k])
    ensures c.nextConnect <= r.nextConnect && r.nextConnect !in c.pending && c.stored <= r.stored
    ensures forall j :: c.nextConnect <= j < r.nextConnect ==> j in c.pending && c.pending[j] in r.stored
    ensures forall j :: j >= r.nextConnect ==> (j in r.pending <==> j in c.pending)
  {
    var k := r.nextConnect;
    assert forall j :: j in c.pending ==> connects(c.pending[j]);
    forall j | c.nextConnect <= j < k
      ensures j in c.pending && c.pending[j] in r.stored
    {
      assert Ready(c, connects, j);
      assert c.pending[j] in WaitingBelow(c, k);
    }
  }

  lemma RowTracks(n: Node, hash: Hash, s: Since, r: Window)
    requires var d := n.window;
             && WaitingOk(d.pending, d.nextConnect + 1, n.chain) && d.nextConnect < |n.chain|
             && n.chain[d.nextConnect] == hash && Tracks(n, s)
             && d.nextConnect < r.nextConnect && r.nextConnect !in d.pending && d.stored + {hash} <= r.stored
             && (forall j :: d.nextConnect < j < r.nextConnect ==> j in d.pending && d.pending[j] in r.stored)
             && forall j :: j >= r.nextConnect ==> (j in r.pending <==> j in d.pending)
    ensures Tracks(n.(window := r), s.(got := s.got + {n.window.nextConnect}))
  {
    var d, t := n.window, s.(got := s.got + {n.window.nextConnect});
    forall k | s.base <= k < r.nextConnect
      ensures Done(n.(window := r), t, k)
    {
      if k < d.nextConnect {
        assert Done(n, s, k);
      } else if k > d.nextConnect {
        assert k in d.pending && d.pending[k] == n.chain[k];
      }
    }
  }

  lemma {:induction false} RunTracks(n: Node, events: seq<Event>)
    requires Initial(n) && PossibleRun(n, events) && SoundRun(n, events)
    ensures Tracks(Run(n, events), Got(n, events))
    decreases |events|
  {
    hide Tracks, Next, Possible, Sound, Bounded;
    if events == [] {
      StartTracks(n);
    } else {
      var init := events[..|events| - 1];
      RunTracks(n, init);
      RunBounded(n, init);
      StepTracks(Run(n, init), events[|events| - 1], Got(n, init));
    }
  }

  lemma StartTracks(n: Node)
    requires Initial(n)
    ensures Tracks(n, Since(n.window.nextConnect, {}))
  {
    hide Tracks;
    EmptyTracks(n);
  }

  lemma EmptyTracks(n: Node)
    requires n.window.pending == map[]
    ensures Tracks(n, Since(n.window.nextConnect, {}))
  {
    var s := Since(n.window.nextConnect, {});
    assert forall k :: k !in n.window.pending && k !in s.got;
  }

  /** In every reachable state the next block to connect is the lowest one not received since
      the last reset, and all below it are stored. So once every block of the header chain has
      arrived, in whatever order, all of them are connected. */
  lemma {:induction false} ReceivedConnected(n: Node, events: seq<Event>)
    requires Initial(n) && PossibleRun(n, events) && SoundRun(n, events)
    ensures var d, chain, s := Run(n, events).window, Run(n, events).chain, Got(n, events);
            && s.base <= d.nextConnect <= |chain|
            && (forall k :: s.base <= k < d.nextConnect ==> k in s.got && chain[k] in d.stored)
            && d.nextConnect !in s.got
            && ((forall k :: s.base <= k < |chain| ==> k in s.got) <==> d.nextConnect == |chain|)
  {
    hide Run, Got, PeerLimits, RequestsOk;
    RunTracks(n, events);
    RunBounded(n, events);
    var node, s := Run(n, events), Got(n, events);
    forall k | s.base <= k < node.window.nextConnect
      ensures k in s.got && k < |node.chain| && node.chain[k] in node.window.stored
    {
      assert Done(node, s, k);
    }
  }

  // ---------- Stored blocks ----------

  lemma StepStores(n: Node, e: Event)
    requires Bounded(n.window, n.chain)
    ensures n.window.stored <= Next(n, e).window.stored
  {
    hide Bounded, Receive, Drop, Fill, Drain;
    match e
    case Filled(peers, excluded, failing) => FillOther(n.window, n.chain, peers, excluded, failing);
    case Received(hash, valid, connects) =>
      if valid && hash in n.window.inFlight {
        ReceiveStores(n.window, n.chain, hash, connects);
      } else {
        Unused(n.window, hash, valid, connects);
      }
    case TimedOut(stale, struck) => DropOther(n.window, Expired(n.window.inFlight, stale, struck));
    case Disconnected(peer) => DropOther(n.window, OfPeer(n.window.inFlight, peer));
    case _ =>
  }

  lemma ReceiveStores(d: Window, chain: seq<Hash>, hash: Hash, connects: Hash -> bool)
    requires Bounded(d, chain) && hash in d.inFlight
    ensures d.stored <= Receive(d, hash, true, connects).stored
  {
    hide Bounded, Receive;
    ReceiveProgress(d, chain, hash, true, connects);
  }

  /** No event, not even a reorganization, gives up a block on disk. */
  lemma {:induction false} RunStores(n: Node, events: seq<Event>, k: nat)
    requires Initial(n) && PossibleRun(n, events) && k <= |events|
    ensures Run(n, events[..k]).window.stored <= Run(n, events).window.stored
    decreases |events|
  {
    hide Next, Possible, Bounded, Initial;
    if k < |events| {
      var init := events[..|events| - 1];
      RunBounded(n, init);
      StepStores(Run(n, init), events[|events| - 1]);
      assert init[..k] == events[..k];
      RunStores(n, init, k);
    } else {
      assert events[..k] == events;
    }
  }
}
