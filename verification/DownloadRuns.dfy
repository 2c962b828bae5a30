/** Whole runs of the download manager. */
module DownloadRuns {
  import opened Basics
  import opened Types
  import opened DownloadSpec
  import opened DownloadTheorems

  /** All three promises. */
  ghost predicate Healthy(d: Window, chain: seq<Hash>) {
    Bounded(d, chain) && Covered(d, chain) && PlaceLeft(d, chain)
  }

  // ---------- Received blocks ----------

  /** Between a connected block and the blocks waiting behind it. */
  ghost predicate Draining(d: Window, chain: seq<Hash>) {
    && RequestsOk(d.inFlight, chain) && WaitingOk(d.pending, d.nextConnect, chain)
    && |d.inFlight| <= WINDOW_SIZE && PeerLimits(d.inFlight)
    && |d.inFlight| + |d.pending| < MAX_PENDING_BLOCKS
    && d.nextHeight <= |chain| && d.nextConnect <= |chain| && Distinct(chain)
  }

  lemma RemovePending(pending: map<nat, Hash>, k: nat)
    requires k in pending
    ensures |pending - {k}| == |pending| - 1
  {
    assert (pending - {k}).Keys == pending.Keys - {k};
  }

  /** The window without the waiting block that is next. */
  function Popped(d: Window): Window {
    d.(pending := d.pending - {d.nextConnect})
  }

  lemma PoppedSmaller(d: Window)
    requires d.nextConnect in d.pending
    ensures |Popped(d).pending| == |d.pending| - 1
  {
    RemovePending(d.pending, d.nextConnect);
  }

  lemma PoppedConnects(d: Window, chain: seq<Hash>, hash: Hash)
    requires Draining(d, chain) && d.nextConnect in d.pending
    ensures Draining(Connected(Popped(d), hash), chain)
  {
    hide RequestsOk, PeerLimits, Distinct, WaitingOk, Popped;
    PoppedSmaller(d);
    PoppedWaits(d, chain);
  }

  lemma PoppedFails(d: Window, chain: seq<Hash>)
    requires Draining(d, chain) && d.nextConnect in d.pending
    ensures Bounded(Redownload(Popped(d), d.nextConnect), chain)
    ensures |d.inFlight| + |Popped(d).pending| < MAX_PENDING_BLOCKS
  {
    hide RequestsOk, PeerLimits, Distinct, WaitingOk, Popped;
    PoppedSmaller(d);
    PoppedWaits(d, chain);
  }

  lemma PoppedWaits(d: Window, chain: seq<Hash>)
    requires WaitingOk(d.pending, d.nextConnect, chain) && d.nextConnect in d.pending
    ensures d.nextConnect < |chain| && WaitingOk(Popped(d).pending, d.nextConnect + 1, chain)
    ensures Popped(d) == d.(pending := Popped(d).pending)
  {
  }

  lemma DrainCovers(d: Window, chain: seq<Hash>, hash: Hash)
    requires Covered(d, chain)
    ensures Covered(Connected(Popped(d), hash), chain)
  {
    var c := Connected(Popped(d), hash);
    forall k | c.nextConnect <= k < c.nextHeight && k < |chain|
      ensures Have(c, chain, k)
    {
      assert Have(d, chain, k);
    }
  }

  lemma DrainDone(d: Window, chain: seq<Hash>)
    requires Draining(d, chain) && d.nextConnect !in d.pending
    ensures Bounded(d, chain) && |d.inFlight| + |d.pending| < MAX_PENDING_BLOCKS
  {
    hide RequestsOk, PeerLimits, Distinct;
  }

  /** Draining connects what it can, and gives back or keeps the rest. */
  lemma {:induction false} DrainKeeps(d: Window, chain: seq<Hash>, connects: Hash -> bool)
    requires Draining(d, chain)
    ensures var r := Drain(d, connects);
            && Bounded(r, chain) && (Covered(d, chain) ==> Covered(r, chain))
            && |r.inFlight| + |r.pending| < MAX_PENDING_BLOCKS
    decreases |d.pending|
  {
    hide Draining, Bounded, Covered;
    if d.nextConnect !in d.pending {
      DrainDone(d, chain);
    } else {
      var hash := d.pending[d.nextConnect];
      var rest := Popped(d);
      PoppedSmaller(d);
      if connects(hash) {
        if Covered(d, chain) {
          DrainCovers(d, chain, hash);
        }
        PoppedConnects(d, chain, hash);
        DrainKeeps(Connected(rest, hash), chain, connects);
      } else {
        PoppedFails(d, chain);
        EmptyRange(Redownload(rest, rest.nextConnect), chain);
      }
    }
  }

  lemma EmptyRange(d: Window, chain: seq<Hash>)
    requires d.nextHeight <= d.nextConnect
    ensures Covered(d, chain)
  {
  }

  /** Taking a request out and asking for its height again. */
  lemma {:induction false} GivenBack(d: Window, chain: seq<Hash>, hash: Hash)
    requires Bounded(d, chain) && hash in d.inFlight
    ensures var r := Redownload(d.(inFlight := d.inFlight - {hash}), d.inFlight[hash].height);
            && Bounded(r, chain) && (Covered(d, chain) ==> Covered(r, chain)) && (PlaceLeft(d, chain) ==> PlaceLeft(r, chain))
  {
    LowestOfOne(d, hash);
    DropKeeps(d, chain, {hash});
  }

  lemma LowestOfOne(d: Window, hash: Hash)
    requires hash in d.inFlight
    ensures Drop(d, {hash}) == Redownload(d.(inFlight := d.inFlight - {hash}), d.inFlight[hash].height)
  {
    var m := Lowest(d.inFlight, {hash}, d.nextHeight);
    assert IsLowest(d.inFlight, {hash}, d.nextHeight, m);
    assert hash in {hash};
  }

  lemma AddPending(pending: map<nat, Hash>, k: nat, hash: Hash)
    ensures |pending[k := hash]| <= |pending| + 1
  {
    assert pending[k := hash].Keys == pending.Keys + {k};
    SubsetSize(pending.Keys + {k}, pending.Keys + {k});
  }

  function Waiting(d: Window, hash: Hash): Window
    requires hash in d.inFlight
  {
    d.(inFlight := d.inFlight - {hash}, pending := d.pending[d.inFlight[hash].height := hash])
  }

  /** An out-of-order block waits. */
  lemma Buffered(d: Window, chain: seq<Hash>, hash: Hash)
    requires Bounded(d, chain) && hash in d.inFlight && d.inFlight[hash].height > d.nextConnect
    ensures Bounded(Waiting(d, hash), chain)
  {
    hide PeerLimits, Distinct;
    RemoveLimits(d.inFlight, {hash});
    RemoveOne(d.inFlight, hash);
    AddPending(d.pending, d.inFlight[hash].height, hash);
  }

  lemma BufferedPlace(d: Window, chain: seq<Hash>, hash: Hash)
    requires hash in d.inFlight && d.inFlight[hash].height > d.nextConnect && PlaceLeft(d, chain)
    ensures PlaceLeft(Waiting(d, hash), chain)
  {
    AddPending(d.pending, d.inFlight[hash].height, hash);
    assert Ahead(Waiting(d, hash)) == Ahead(d) - {hash};
  }

  lemma BufferedCovers(d: Window, chain: seq<Hash>, hash: Hash)
    requires Bounded(d, chain) && hash in d.inFlight
    ensures var height := d.inFlight[hash].height;
            && (Covered(d, chain) ==> Covered(Waiting(d, hash), chain))
            && (Covered(d, chain) ==> Covered(d.(inFlight := d.inFlight - {hash}, stored := d.stored + {hash}), chain))
  {
    hide PeerLimits;
    var height := d.inFlight[hash].height;
    if Covered(d, chain) {
      var r := Waiting(d, hash);
      var t := d.(inFlight := d.inFlight - {hash}, stored := d.stored + {hash});
      forall k | d.nextConnect <= k < d.nextHeight && k < |chain|
        ensures Have(r, chain, k) && Have(t, chain, k)
      {
        assert Have(d, chain, k);
        assert chain[k] == hash ==> k == height;
      }
    }
  }

  lemma StoredOld(d: Window, chain: seq<Hash>, hash: Hash)
    requires Bounded(d, chain) && hash in d.inFlight
    ensures var r := d.(inFlight := d.inFlight - {hash}, stored := d.stored + {hash});
            && Bounded(r, chain) && (Covered(d, chain) ==> Covered(r, chain)) && (PlaceLeft(d, chain) ==> PlaceLeft(r, chain))
  {
    hide PeerLimits, RequestsOk, WaitingOk, Distinct, Covered;
    var r := d.(inFlight := d.inFlight - {hash}, stored := d.stored + {hash});
    DropBounded(d, chain, {hash}, d.nextHeight);
    BufferedCovers(d, chain, hash);
    AheadShrinks(d, {hash}, r);
  }

  lemma {:induction false} ConnectedDrains(d: Window, chain: seq<Hash>, hash: Hash)
    requires Bounded(d, chain) && hash in d.inFlight && d.inFlight[hash].height == d.nextConnect
    ensures var c := Connected(d.(inFlight := d.inFlight - {hash}), hash);
            Draining(c, chain) && (Covered(d, chain) ==> Covered(c, chain))
  {
    hide PeerLimits;
    var c := Connected(d.(inFlight := d.inFlight - {hash}), hash);
    RemoveOne(d.inFlight, hash);
    RemoveLimits(d.inFlight, {hash});
    if Covered(d, chain) {
      forall k | c.nextConnect <= k < c.nextHeight && k < |chain|
        ensures Have(c, chain, k)
      {
        assert Have(d, chain, k);
      }
    }
  }

  lemma SlimLeavesPlace(d: Window, chain: seq<Hash>)
    requires |d.inFlight| + |d.pending| < MAX_PENDING_BLOCKS
    ensures PlaceLeft(d, chain)
  {
    AheadBound(d);
  }

  /** The buffer is never full when a block arrives. */
  lemma {:induction false} NeverDiscards(d: Window, chain: seq<Hash>, hash: Hash)
    requires Bounded(d, chain) && hash in d.inFlight
    ensures |d.pending| < MAX_PENDING_BLOCKS
  {
    assert hash in d.inFlight.Keys;
    assert |d.inFlight| == |d.inFlight.Keys|;
  }

  lemma {:induction false} ReceiveKeeps(d: Window, chain: seq<Hash>, hash: Hash, valid: bool, connects: Hash -> bool)
    requires Bounded(d, chain)
    ensures var r := Receive(d, hash, valid, connects);
            && Bounded(r, chain) && (Covered(d, chain) ==> Covered(r, chain)) && (PlaceLeft(d, chain) ==> PlaceLeft(r, chain))
  {
    hide Bounded, Covered, PlaceLeft, Drain;
    if hash in d.inFlight {
      NeverDiscards(d, chain, hash);
      var height := d.inFlight[hash].height;
      if !valid || (height == d.nextConnect && !connects(hash)) {
        GivenBack(d, chain, hash);
      } else if height == d.nextConnect {
        ConnectedDrains(d, chain, hash);
        var c := Connected(d.(inFlight := d.inFlight - {hash}), hash);
        DrainKeeps(c, chain, connects);
        SlimLeavesPlace(Drain(c, connects), chain);
      } else if height > d.nextConnect {
        Buffered(d, chain, hash);
        BufferedCovers(d, chain, hash);
        if PlaceLeft(d, chain) {
          BufferedPlace(d, chain, hash);
        }
      } else {
        StoredOld(d, chain, hash);
      }
    }
  }

  // ---------- Dropped requests ----------

  lemma DropBounded(d: Window, chain: seq<Hash>, gone: set<Hash>, next: nat)
    requires Bounded(d, chain) && next <= |chain|
    ensures Bounded(d.(inFlight := d.inFlight - gone, nextHeight := next), chain)
  {
    hide PeerLimits, WaitingOk, Distinct;
    RemoveLimits(d.inFlight, gone);
  }

  lemma RemoveLimits(inFlight: Requests, gone: set<Hash>)
    ensures |inFlight - gone| <= |inFlight| && (PeerLimits(inFlight) ==> PeerLimits(inFlight - gone))
  {
    hide OfPeer;
    RemoveCount(inFlight, gone, 0);
    if PeerLimits(inFlight) {
      forall p
        ensures |OfPeer(inFlight - gone, p)| <= PER_PEER_LIMIT
      {
        RemoveCount(inFlight, gone, p);
      }
    }
  }

  lemma AheadShrinks(d: Window, gone: set<Hash>, r: Window)
    requires r.inFlight == d.inFlight - gone && r.nextConnect == d.nextConnect
    ensures |Ahead(r)| <= |Ahead(d)|
  {
    SubsetSize(Ahead(r), Ahead(d));
  }

  lemma {:induction false} DropKeeps(d: Window, chain: seq<Hash>, gone: set<Hash>)
    requires Bounded(d, chain)
    ensures var r := Drop(d, gone);
            && Bounded(r, chain) && (Covered(d, chain) ==> Covered(r, chain)) && (PlaceLeft(d, chain) ==> PlaceLeft(r, chain))
  {
    hide PeerLimits, Lowest;
    var m := Lowest(d.inFlight, gone, d.nextHeight);
    DropBounded(d, chain, gone, m);
    var r := Drop(d, gone);
    AheadShrinks(d, gone, r);
    if Covered(d, chain) {
      forall k | r.nextConnect <= k < r.nextHeight && k < |chain|
        ensures Have(r, chain, k)
      {
        assert Have(d, chain, k);
        assert chain[k] in d.inFlight ==> d.inFlight[chain[k]].height == k;
        assert chain[k] in d.inFlight ==> chain[k] !in gone;
      }
    }
  }

  // ---------- Runs ----------

  datatype Event =
    | Filled(peers: seq<Peer>, excluded: set<Peer>, failing: set<Peer>)
    | Received(hash: Hash, valid: bool, connects: Hash -> bool)
    | TimedOut(stale: set<Hash>, struck: set<Peer>)
    | Disconnected(peer: Peer)
    | Reorganized(newChain: seq<Hash>, newTip: nat)
    | NewHeaders(more: seq<Hash>)

  datatype Node = Node(window: Window, chain: seq<Hash>)

  ghost function Next(n: Node, e: Event): Node {
    match e
    case Filled(peers, excluded, failing) => n.(window := Fill(n.window, n.chain, peers, excluded, failing))
    case Received(hash, valid, connects) => n.(window := Receive(n.window, hash, valid, connects))
    case TimedOut(stale, struck) => n.(window := TimeOut(n.window, stale, struck))
    case Disconnected(peer) => n.(window := PeerGone(n.window, peer))
    case Reorganized(newChain, newTip) => Node(Reset(n.window, newTip), newChain)
    case NewHeaders(more) => n.(chain := n.chain + more)
  }

  /** Peers are listed once, and header chains repeat no hash. */
  ghost predicate Possible(n: Node, e: Event) {
    match e
    case Filled(peers, _, _) => DistinctPeers(peers)
    case Reorganized(newChain, newTip) => Distinct(newChain) && newTip < |newChain|
    case NewHeaders(more) => Distinct(n.chain + more)
    case _ => true
  }

  /** No fill finds all peers at their limit after collecting something. */
  ghost predicate Roomy(n: Node, e: Event) {
    e.Filled? ==> !Loses(n.window, n.chain, e.peers, e.excluded)
  }

  lemma ExtendKeeps(d: Window, chain: seq<Hash>, more: seq<Hash>)
    requires Bounded(d, chain) && Distinct(chain + more)
    ensures var c := chain + more;
            && Bounded(d, c) && (Covered(d, chain) ==> Covered(d, c)) && (PlaceLeft(d, chain) ==> PlaceLeft(d, c))
  {
    hide PeerLimits;
    var c := chain + more;
    if Covered(d, chain) {
      forall k | d.nextConnect <= k < d.nextHeight && k < |c|
        ensures Have(d, c, k)
      {
        assert Have(d, chain, k);
      }
    }
    if d.nextConnect == |chain| {
      NothingAhead(d, chain);
    }
  }

  lemma {:induction false} ResetHealthy(d: Window, chain: seq<Hash>, newTip: nat)
    requires Distinct(chain) && newTip < |chain|
    ensures Healthy(Reset(d, newTip), chain)
  {
    var r := Reset(d, newTip);
    forall p
      ensures |OfPeer(r.inFlight, p)| <= PER_PEER_LIMIT
    {
      assert OfPeer(r.inFlight, p) == {};
    }
    assert Ahead(r) == {};
  }

  /** Every event keeps the limits. */
  lemma StepBounded(n: Node, e: Event)
    requires Bounded(n.window, n.chain) && Possible(n, e)
    ensures Bounded(Next(n, e).window, Next(n, e).chain)
  {
    hide Bounded, Covered, PlaceLeft, Fill, Receive, Drop, Reset;
    match e
    case Filled(peers, excluded, failing) => FillBounded(n.window, n.chain, peers, excluded, failing);
    case Received(hash, valid, connects) => ReceiveKeeps(n.window, n.chain, hash, valid, connects);
    case TimedOut(stale, struck) => DropKeeps(n.window, n.chain, Expired(n.window.inFlight, stale, struck));
    case Disconnected(peer) => DropKeeps(n.window, n.chain, OfPeer(n.window.inFlight, peer));
    case Reorganized(newChain, newTip) => ResetHealthy(n.window, newChain, newTip);
    case NewHeaders(more) => ExtendKeeps(n.window, n.chain, more);
  }

  /** An event keeps coverage and the free place, and a fill keeps them exactly when a peer
      had room for what it collected. */
  lemma {:induction false} StepHealthyIff(n: Node, e: Event)
    requires Healthy(n.window, n.chain) && Possible(n, e)
    ensures Healthy(Next(n, e).window, Next(n, e).chain) <==> Roomy(n, e)
  {
    hide Bounded, Covered, PlaceLeft, Fill, Receive, Drop, Reset, Loses;
    match e
    case Filled(peers, excluded, failing) =>
      FillBounded(n.window, n.chain, peers, excluded, failing);
      FillCoveredIff(n.window, n.chain, peers, excluded, failing);
      FillLeavesPlace(n.window, n.chain, peers, excluded, failing);
    case Received(hash, valid, connects) => ReceiveKeeps(n.window, n.chain, hash, valid, connects);
    case TimedOut(stale, struck) => DropKeeps(n.window, n.chain, Expired(n.window.inFlight, stale, struck));
    case Disconnected(peer) => DropKeeps(n.window, n.chain, OfPeer(n.window.inFlight, peer));
    case Reorganized(newChain, newTip) => ResetHealthy(n.window, newChain, newTip);
    case NewHeaders(more) => ExtendKeeps(n.window, n.chain, more);
  }

  ghost function Run(n: Node, events: seq<Event>): Node {
    if events == [] then n else Next(Run(n, events[..|events| - 1]), events[|events| - 1])
  }

  ghost predicate PossibleRun(n: Node, events: seq<Event>) {
    events == [] ||
    (PossibleRun(n, events[..|events| - 1]) && Possible(Run(n, events[..|events| - 1]), events[|events| - 1]))
  }

  ghost predicate RoomyRun(n: Node, events: seq<Event>) {
    events == [] ||
    (RoomyRun(n, events[..|events| - 1]) && Roomy(Run(n, events[..|events| - 1]), events[|events| - 1]))
  }

  /** A manager that was just created. */
  ghost predicate Initial(n: Node) {
    && n.window.inFlight == map[] && n.window.pending == map[] && n.window.nextHeight == 1
    && 1 <= n.window.nextConnect <= |n.chain| && Distinct(n.chain)
  }

  lemma InitialHealthy(n: Node)
    requires Initial(n)
    ensures Healthy(n.window, n.chain)
  {
    forall p
      ensures |OfPeer(n.window.inFlight, p)| <= PER_PEER_LIMIT
    {
      assert OfPeer(n.window.inFlight, p) == {};
    }
    assert Ahead(n.window) == {};
  }

  /** In every reachable state at most 512 blocks are in flight, at most 48 with one peer, at
      most 1024 in flight or waiting, and what waits is above the next block to connect. */
  lemma {:induction false} RunBounded(n: Node, events: seq<Event>)
    requires Initial(n) && PossibleRun(n, events)
    ensures Bounded(Run(n, events).window, Run(n, events).chain)
    decreases |events|
  {
    hide Bounded, Next, Possible;
    if events == [] {
      InitialHealthy(n);
    } else {
      RunBounded(n, events[..|events| - 1]);
      StepBounded(Run(n, events[..|events| - 1]), events[|events| - 1]);
    }
  }

  /** As long as fills find room, no height is ever lost and the block needed next always has
      a place. */
  lemma {:induction false} RunHealthy(n: Node, events: seq<Event>)
    requires Initial(n) && PossibleRun(n, events) && RoomyRun(n, events)
    ensures Healthy(Run(n, events).window, Run(n, events).chain)
    decreases |events|
  {
    hide Healthy, Next, Possible, Roomy;
    if events == [] {
      InitialHealthy(n);
    } else {
      RunHealthy(n, events[..|events| - 1]);
      StepHealthyIff(Run(n, events[..|events| - 1]), events[|events| - 1]);
    }
  }

  // ---------- Enough peers, and progress ----------

  /** Peers that are all at the limit hold that many requests each. */
  lemma {:induction false} FullPeers(inFlight: Requests, full: set<Peer>)
    requires forall p :: p in full ==> |OfPeer(inFlight, p)| >= PER_PEER_LIMIT
    ensures |inFlight| >= PER_PEER_LIMIT * |full|
    decreases full
  {
    if full != {} {
      var p :| p in full;
      var mine := OfPeer(inFlight, p);
      var others := inFlight - mine;
      forall q | q in full - {p}
        ensures |OfPeer(others, q)| >= PER_PEER_LIMIT
      {
        assert OfPeer(others, q) == OfPeer(inFlight, q);
      }
      FullPeers(others, full - {p});
      assert inFlight.Keys == mine + others.Keys && mine !! others.Keys;
      assert |inFlight| == |mine| + |others|;
    }
  }

  /** With eleven usable peers a fill always finds room. */
  lemma {:induction false} ElevenPeersSuffice(d: Window, chain: seq<Hash>, peers: seq<Peer>, excluded: set<Peer>,
      usable: set<Peer>)
    requires Bounded(d, chain) && |usable| >= 11 && forall p :: p in usable ==> p in peers && p !in excluded
    ensures HasRoom(d, peers, excluded) && !Loses(d, chain, peers, excluded)
  {
    hide OfPeer, Scan;
    if forall p :: p in usable ==> |OfPeer(d.inFlight, p)| >= PER_PEER_LIMIT {
      FullPeers(d.inFlight, usable);
    }
  }

  /** With an empty window, the block needed next neither stored nor waiting, and a peer to
      ask, a fill requests the lowest missing block, which is not above the one needed. */
  lemma {:induction false} EmptyWindowRequests(d: Window, chain: seq<Hash>, peers: seq<Peer>, excluded: set<Peer>)
    requires Healthy(d, chain) && d.inFlight == map[] && HasRoom(d, peers, excluded)
    requires d.nextConnect < |chain| && chain[d.nextConnect] !in d.stored
    ensures exists k :: d.nextHeight <= k <= d.nextConnect && !Have(d, chain, k) &&
                        (forall j :: d.nextHeight <= j < k ==> Have(d, chain, j)) &&
                        chain[k] in Fill(d, chain, peers, excluded, {}).inFlight
  {
    hide Healthy, Have, OfPeer, Scan, Rooms, Allot, Commit, FailedNext, FreeSlots;
    NeededMissing(d, chain);
    var c, free := d.nextConnect, FreeSlots(d);
    var s := Scan(d, chain, d.nextHeight, free);
    ScanFacts(d, chain, d.nextHeight, free);
    ScanInChain(d, chain, d.nextHeight, free);
    RoomsIff(d, peers, excluded);
    var rooms := Rooms(d.inFlight, peers, excluded);
    assert c < s.next ==> c in s.heights;
    assert s.heights != [];
    var given := Allot(rooms, |s.heights|);
    SomeAllotted(rooms, |s.heights|);
    CommitFacts(d.inFlight, chain, s.heights, given, {});
    FirstMissing(d, chain, s, c);
    assert given[0] !in {};
  }

  lemma SomeAllotted(rooms: seq<Room>, n: nat)
    requires rooms != [] && n > 0 && forall i :: 0 <= i < |rooms| ==> rooms[i].free > 0
    ensures 0 < |Allot(rooms, n)| <= n
  {
    SomeSlot(rooms);
  }

  /** With an empty window the block needed next can be reached by the scan. */
  lemma NeededMissing(d: Window, chain: seq<Hash>)
    requires Healthy(d, chain) && d.inFlight == map[] && d.nextConnect < |chain| && chain[d.nextConnect] !in d.stored
    ensures !Have(d, chain, d.nextConnect) && d.nextHeight <= d.nextConnect && FreeSlots(d) > 0
  {
    hide PeerLimits, RequestsOk, Distinct;
    assert |Ahead(d)| == 0 by { AheadBound(d); }
  }

  lemma FirstMissing(d: Window, chain: seq<Hash>, s: Scanned, c: nat)
    requires ScanOk(d, chain, s) && s.heights != [] && d.nextHeight <= c < |chain| && !Have(d, chain, c)
    ensures s.heights[0] <= c && d.nextHeight <= s.heights[0] < |chain| && !Have(d, chain, s.heights[0])
    ensures forall j :: d.nextHeight <= j < s.heights[0] ==> Have(d, chain, j)
  {
    assert s.heights[0] in s.heights;
    forall j | d.nextHeight <= j < s.heights[0]
      ensures j !in s.heights
    {
    }
  }

  /** A fresh manager, one block to fetch, and the only peer excluded: the fill moves past the
      block without asking for it. When the peer is usable again no fill asks either. */
  lemma {:induction false} HeightLost(genesis: Hash, block: Hash, peer: Peer)
    requires genesis != block
    ensures var n := Node(Window(map[], 1, 1, {}, map[]), [genesis, block]);
            var after := Fill(n.window, n.chain, [peer], {peer}, {});
            && Initial(n) && after.inFlight == map[] && after.nextHeight == 2 && !Covered(after, n.chain)
            && forall peers, excluded, failing :: Fill(after, n.chain, peers, excluded, failing) == after
  {
    var chain := [genesis, block];
    var d := Window(map[], 1, 1, {}, map[]);
    assert !Have(d, chain, 1);
    assert Scan(d, chain, 2, FreeSlots(d) - 1) == Scanned([], 2);
    assert Scan(d, chain, 1, FreeSlots(d)) == Scanned([1], 2);
    assert [peer][..0] == [];
    assert Rooms(map[], [peer], {peer}) == [];
    var after := Fill(d, chain, [peer], {peer}, {});
    assert !Have(after, chain, 1);
  }
}
