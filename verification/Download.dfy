/** The download manager object. */
module DownloadClass {
  import opened Basics
  import opened Types
  import opened DownloadSpec
  import opened DownloadTheorems

  const SCAN_BATCH_SIZE := 4096

  class DownloadManager {
    var inFlight: Requests
    var nextHeight: nat
    var nextConnect: nat
    var stored: set<Hash>
    var pending: map<nat, Hash>

    constructor (stored: set<Hash>, tipHeight: nat)
      ensures Value() == Window(map[], 1, tipHeight + 1, stored, map[])
    {
      inFlight, nextHeight, nextConnect := map[], 1, tipHeight + 1;
      this.stored, pending := stored, map[];
    }

    ghost function Value(): Window
      reads this
    {
      Window(inFlight, nextHeight, nextConnect, stored, pending)
    }

    // ---------- Filling the window ----------

    /** Phase 1, batch by batch. */
    method Collect(chain: seq<Hash>, free: nat) returns (heights: seq<nat>)
      modifies this`nextHeight
      ensures Scanned(heights, nextHeight) == Scan(old(Value()), chain, old(nextHeight), free)
    {
      hide Have;
      ghost var d := Value();
      heights := [];
      while |heights| < free && nextHeight < |chain|
        invariant |heights| <= free
        invariant Joined(heights, Scan(d, chain, nextHeight, free - |heights|)) == Scan(d, chain, d.nextHeight, free)
        decreases Less(|chain|, nextHeight)
      {
        heights := CollectBatch(chain, free, heights, Min(nextHeight + SCAN_BATCH_SIZE, |chain|), d);
      }
    }

    method CollectBatch(chain: seq<Hash>, free: nat, found: seq<nat>, rangeEnd: nat,
        ghost d: Window) returns (heights: seq<nat>)
      requires |found| < free && nextHeight < rangeEnd <= |chain| && d == Value().(nextHeight := d.nextHeight)
      modifies this`nextHeight
      ensures |heights| <= free && nextHeight > old(nextHeight)
      ensures Joined(heights, Scan(d, chain, nextHeight, free - |heights|)) ==
              Joined(found, Scan(d, chain, old(nextHeight), free - |found|))
    {
      hide Have;
      heights := found;
      while nextHeight < rangeEnd && |heights| < free
        invariant old(nextHeight) <= nextHeight <= rangeEnd && |heights| <= free
        invariant nextHeight == old(nextHeight) ==> heights == found
        invariant Joined(heights, Scan(d, chain, nextHeight, free - |heights|)) ==
                  Joined(found, Scan(d, chain, old(nextHeight), free - |found|))
        decreases rangeEnd - nextHeight
      {
        var k := nextHeight;
        nextHeight := k + 1;
        SameHave(d, Value(), chain, k);
        if !(chain[k] in stored || chain[k] in inFlight || k in pending) {
          JoinNext(heights, k, Scan(d, chain, k + 1, free - |heights| - 1));
          heights := heights + [k];
        }
      }
    }

    /** Requests in flight per peer. */
    method CountUsed() returns (used: map<Peer, nat>)
      ensures forall p :: Used(used, p) == |OfPeer(inFlight, p)|
    {
      used := map[];
      var todo := inFlight.Keys;
      assert forall p :: OfPeer(inFlight - todo, p) == {};
      while todo != {}
        invariant todo <= inFlight.Keys
        invariant forall p :: Used(used, p) == |OfPeer(inFlight - todo, p)|
        decreases |todo|
      {
        var h :| h in todo;
        var peer := inFlight[h].peer;
        OneMoreUsed(inFlight, todo, h);
        used := used[peer := Used(used, peer) + 1];
        todo := todo - {h};
      }
      assert inFlight - {} == inFlight;
    }

    method FindRooms(peers: seq<Peer>, excluded: set<Peer>) returns (rooms: seq<Room>)
      ensures rooms == Rooms(inFlight, peers, excluded)
    {
      hide OfPeer;
      var used := CountUsed();
      rooms := [];
      var i := 0;
      while i < |peers|
        invariant 0 <= i <= |peers| && rooms == Rooms(inFlight, peers[..i], excluded)
      {
        var free := Less(PER_PEER_LIMIT, Used(used, peers[i]));
        assert peers[..i + 1][..i] == peers[..i];
        if peers[i] !in excluded && free > 0 {
          rooms := rooms + [Room(peers[i], free)];
        }
        i := i + 1;
      }
      assert peers[..i] == peers;
    }

    /** Phase 3: what could be sent is in flight, the rest will be asked for again. */
    method Send(chain: seq<Hash>, heights: seq<nat>, given: seq<Peer>, failing: set<Peer>)
      requires |given| <= |heights| && InChain(chain, heights)
      modifies this`inFlight, this`nextHeight
      ensures inFlight == Commit(old(inFlight), chain, heights, given, failing)
      ensures nextHeight == FailedNext(old(nextHeight), heights, given, failing)
    {
      var low, i := nextHeight, 0;
      while i < |given|
        invariant 0 <= i <= |given| && nextHeight == old(nextHeight)
        invariant inFlight == Commit(old(inFlight), chain, heights, given[..i], failing)
        invariant low == FailedNext(old(nextHeight), heights, given[..i], failing)
      {
        assert given[..i + 1][..i] == given[..i];
        if given[i] in failing {
          low := Min(low, heights[i]);
        } else {
          inFlight := inFlight[chain[heights[i]] := Req(given[i], heights[i])];
        }
        i := i + 1;
      }
      assert given[..i] == given;
      nextHeight := low;
    }

    method FillWindow(chain: seq<Hash>, peers: seq<Peer>, excluded: set<Peer>, failing: set<Peer>)
      modifies this`inFlight, this`nextHeight
      ensures Value() == Fill(old(Value()), chain, peers, excluded, failing)
    {
      hide Scan, Rooms, Allot, Commit, FailedNext;
      var outstanding := |pending| + |inFlight|;
      var free := Min(Less(WINDOW_SIZE, |inFlight|), Less(MAX_PENDING_BLOCKS, outstanding));
      if free < REFILL_THRESHOLD && inFlight != map[] {
        return;
      }
      if peers == [] || nextHeight >= |chain| {
        return;
      }
      ScanInChain(Value(), chain, nextHeight, free);
      var heights := Collect(chain, free);
      if heights == [] {
        return;
      }
      var rooms := FindRooms(peers, excluded);
      if rooms == [] {
        return;
      }
      var given := HandOut(rooms, |heights|);
      AllotShort(rooms, |heights|);
      if |given| < |heights| {
        nextHeight := Min(nextHeight, heights[|given|]);
      }
      Send(chain, heights, given, failing);
    }

    // ---------- Received blocks ----------

    method ScheduleRedownload(height: nat)
      modifies this`nextHeight
      ensures Value() == Redownload(old(Value()), height)
    {
      nextHeight := Min(nextHeight, height);
    }

    method ConnectAndStore(hash: Hash, connects: Hash -> bool) returns (ok: bool)
      modifies this`stored, this`nextConnect
      ensures ok == connects(hash)
      ensures Value() == if ok then Connected(old(Value()), hash) else old(Value())
    {
      ok := connects(hash);
      if ok {
        stored := stored + {hash};
        nextConnect := nextConnect + 1;
      }
    }

    method DrainPending(connects: Hash -> bool)
      modifies this`nextHeight, this`nextConnect, this`stored, this`pending
      ensures Value() == Drain(old(Value()), connects)
    {
      while nextConnect in pending
        invariant Drain(Value(), connects) == Drain(old(Value()), connects) && inFlight == old(inFlight)
        decreases |pending|
      {
        var hash := pending[nextConnect];
        ghost var before := pending.Keys;
        pending := pending - {nextConnect};
        assert pending.Keys == before - {nextConnect};
        var ok := ConnectAndStore(hash, connects);
        if !ok {
          ScheduleRedownload(nextConnect);
          return;
        }
      }
    }

    method HandleReceivedBlock(hash: Hash, valid: bool, connects: Hash -> bool)
      modifies this
      ensures Value() == Receive(old(Value()), hash, valid, connects)
    {
      hide Drain;
      if hash !in inFlight {
        return;
      }
      var height := inFlight[hash].height;
      inFlight := inFlight - {hash};
      if !valid {
        ScheduleRedownload(height);
      } else if height == nextConnect {
        var ok := ConnectAndStore(hash, connects);
        if ok {
          DrainPending(connects);
        } else {
          ScheduleRedownload(height);
        }
      } else if height > nextConnect {
        if |pending| >= MAX_PENDING_BLOCKS {
          ScheduleRedownload(height);
        } else {
          pending := pending[height := hash];
        }
      } else {
        stored := stored + {hash};
      }
    }

    // ---------- Dropped requests ----------

    /** Removes requests one by one and remembers the lowest height. */
    method Expire(gone: set<Hash>)
      requires gone <= inFlight.Keys
      modifies this`inFlight, this`nextHeight
      ensures Value() == Drop(old(Value()), gone)
    {
      hide Lowest;
      var todo := gone;
      var low: nat := nextHeight;
      while todo != {}
        invariant todo <= gone && inFlight == old(inFlight) - (gone - todo) && nextHeight == old(nextHeight)
        invariant IsLowest(old(inFlight), gone - todo, old(nextHeight), low)
        decreases |todo|
      {
        var h :| h in todo;
        LowestNext(old(inFlight), gone - todo, old(nextHeight), low, h);
        low := Min(low, inFlight[h].height);
        inFlight := inFlight - {h};
        assert gone - (todo - {h}) == gone - todo + {h};
        todo := todo - {h};
      }
      assert gone - {} == gone;
      LowestUnique(old(inFlight), gone, old(nextHeight), low);
      nextHeight := low;
    }

    method HandlePeerDisconnect(peer: Peer)
      modifies this`inFlight, this`nextHeight
      ensures Value() == PeerGone(old(Value()), peer)
    {
      var gone := set h | h in inFlight && inFlight[h].peer == peer;
      assert gone == OfPeer(inFlight, peer);
      Expire(gone);
    }

    method HandleTimeoutScan(stale: set<Hash>, struck: set<Peer>)
      modifies this`inFlight, this`nextHeight
      ensures Value() == TimeOut(old(Value()), stale, struck)
    {
      hide Drop;
      var timedOut := set h | h in inFlight && h in stale;
      var others := set h | h in inFlight && h !in stale && inFlight[h].peer in struck;
      TimeOutTwice(Value(), stale, struck);
      OthersRemain(Value(), timedOut, others);
      Expire(timedOut);
      Expire(others);
    }

    method HandleReorg(newTip: nat)
      modifies this
      ensures Value() == Reset(old(Value()), newTip)
    {
      nextConnect := newTip + 1;
      nextHeight := nextConnect;
      inFlight, pending := map[], map[];
    }
  }

  // ---------- Loops over values ----------

  function Joined(found: seq<nat>, s: Scanned): Scanned {
    Scanned(found + s.heights, s.next)
  }

  lemma JoinNext(found: seq<nat>, k: nat, s: Scanned)
    ensures Joined(found + [k], s) == Joined(found, Scanned([k] + s.heights, s.next))
  {
    assert found + [k] + s.heights == found + ([k] + s.heights);
  }

  lemma SameHave(a: Window, b: Window, chain: seq<Hash>, k: nat)
    requires k < |chain| && a.stored == b.stored && a.inFlight == b.inFlight && a.pending == b.pending
    ensures Have(a, chain, k) <==> (chain[k] in b.stored || chain[k] in b.inFlight || k in b.pending)
  {
  }

  function Used(used: map<Peer, nat>, p: Peer): nat {
    if p in used then used[p] else 0
  }

  lemma OneMoreUsed(inFlight: Requests, todo: set<Hash>, h: Hash)
    requires todo <= inFlight.Keys && h in todo
    ensures forall p :: |OfPeer(inFlight - (todo - {h}), p)| ==
                        |OfPeer(inFlight - todo, p)| + if p == inFlight[h].peer then 1 else 0
  {
    forall p
      ensures |OfPeer(inFlight - (todo - {h}), p)| == |OfPeer(inFlight - todo, p)| + if p == inFlight[h].peer then 1 else 0
    {
      var extra := if p == inFlight[h].peer then {h} else {};
      assert OfPeer(inFlight - (todo - {h}), p) == OfPeer(inFlight - todo, p) + extra;
    }
  }

  lemma {:induction false} SlotsPrefix(rooms: seq<Room>, k: nat)
    requires k <= |rooms|
    ensures Slots(rooms[..k]) <= Slots(rooms)
    decreases |rooms|
  {
    if k < |rooms| {
      var init := rooms[..|rooms| - 1];
      SlotsPrefix(init, k);
      assert init[..k] == rooms[..k];
    } else {
      assert rooms[..k] == rooms;
    }
  }

  /** What the first peers and part of the next one take. */
  ghost predicate TakenSoFar(rooms: seq<Room>, idx: nat, left: nat, given: seq<Peer>) {
    if idx < |rooms| then
      left <= rooms[idx].free && given == Slots(rooms[..idx]) + Repeat(rooms[idx].peer, rooms[idx].free - left)
    else idx == |rooms| && left == 0 && given == Slots(rooms)
  }

  lemma NextPeer(rooms: seq<Room>, idx: nat, given: seq<Peer>)
    requires idx < |rooms| && TakenSoFar(rooms, idx, 0, given)
    ensures TakenSoFar(rooms, idx + 1, if idx + 1 < |rooms| then rooms[idx + 1].free else 0, given)
  {
    assert rooms[..idx + 1][..idx] == rooms[..idx];
    assert given == Slots(rooms[..idx + 1]);
    if idx + 1 < |rooms| {
      assert Repeat(rooms[idx + 1].peer, 0) == [];
    } else {
      assert rooms[..idx + 1] == rooms;
    }
  }

  lemma TakeOne(rooms: seq<Room>, idx: nat, left: nat, given: seq<Peer>)
    requires idx < |rooms| && 0 < left && TakenSoFar(rooms, idx, left, given)
    ensures TakenSoFar(rooms, idx, left - 1, given + [rooms[idx].peer])
  {
    var r := rooms[idx];
    assert Repeat(r.peer, r.free - left + 1) == Repeat(r.peer, r.free - left) + [r.peer];
  }

  lemma TakenIsAllot(rooms: seq<Room>, idx: nat, left: nat, given: seq<Peer>, n: nat)
    requires idx <= |rooms| && TakenSoFar(rooms, idx, left, given) && |given| <= n && (|given| == n || idx == |rooms|)
    ensures given == Allot(rooms, n)
  {
    if idx < |rooms| {
      SlotsPrefix(rooms, idx + 1);
      assert rooms[..idx + 1][..idx] == rooms[..idx];
      var whole := Slots(rooms[..idx]) + Repeat(rooms[idx].peer, rooms[idx].free);
      assert given <= whole;
    }
  }

  /** Phase 2: peers are filled one after the other. */
  method HandOut(rooms: seq<Room>, n: nat) returns (given: seq<Peer>)
    ensures given == Allot(rooms, n)
  {
    hide TakenSoFar, Allot, Slots;
    given := [];
    var idx: nat, left: nat := 0, if rooms == [] then 0 else rooms[0].free;
    NoneTaken(rooms);
    while |given| < n
      invariant idx <= |rooms| && |given| <= n && TakenSoFar(rooms, idx, left, given)
    {
      while idx < |rooms| && left == 0
        invariant idx <= |rooms| && TakenSoFar(rooms, idx, left, given)
        decreases |rooms| - idx
      {
        NextPeer(rooms, idx, given);
        idx := idx + 1;
        left := if idx < |rooms| then rooms[idx].free else 0;
      }
      if idx >= |rooms| {
        break;
      }
      TakeOne(rooms, idx, left, given);
      given, left := given + [rooms[idx].peer], left - 1;
    }
    TakenIsAllot(rooms, idx, left, given, n);
  }

  lemma NoneTaken(rooms: seq<Room>)
    ensures TakenSoFar(rooms, 0, if rooms == [] then 0 else rooms[0].free, [])
  {
    if rooms != [] {
      assert Repeat(rooms[0].peer, 0) == [];
    }
  }

  lemma LowestNext(inFlight: Requests, gone: set<Hash>, next: nat, low: nat, h: Hash)
    requires IsLowest(inFlight, gone, next, low) && h in inFlight
    ensures IsLowest(inFlight, gone + {h}, next, Min(low, inFlight[h].height))
  {
    if low != next {
      var g :| g in gone && g in inFlight && inFlight[g].height == low;
      assert g in gone + {h};
    }
    assert h in gone + {h};
  }

  lemma LowestUnique(inFlight: Requests, gone: set<Hash>, next: nat, low: nat)
    requires IsLowest(inFlight, gone, next, low)
    ensures low == Lowest(inFlight, gone, next)
  {
    hide Lowest;
    var m := Lowest(inFlight, gone, next);
    assert IsLowest(inFlight, gone, next, m);
  }

  /** The stale requests first, then the other requests of the peers that struck out. */
  lemma TimeOutTwice(d: Window, stale: set<Hash>, struck: set<Peer>)
    ensures var timedOut := set h | h in d.inFlight && h in stale;
            var others := set h | h in d.inFlight && h !in stale && d.inFlight[h].peer in struck;
            TimeOut(d, stale, struck) == Drop(Drop(d, timedOut), others)
  {
    hide Drop;
    var timedOut := set h | h in d.inFlight && h in stale;
    var others := set h | h in d.inFlight && h !in stale && d.inFlight[h].peer in struck;
    assert Expired(d.inFlight, stale, struck) == timedOut + others;
    DropTwice(d, timedOut, others);
  }

  lemma OthersRemain(d: Window, a: set<Hash>, b: set<Hash>)
    requires b <= d.inFlight.Keys && a !! b
    ensures b <= Drop(d, a).inFlight.Keys
  {
    hide Lowest;
  }

  /** Dropping in two rounds is dropping all at once. */
  lemma DropTwice(d: Window, a: set<Hash>, b: set<Hash>)
    requires a <= d.inFlight.Keys && b <= d.inFlight.Keys && a !! b
    ensures Drop(Drop(d, a), b) == Drop(d, a + b)
  {
    hide Lowest;
    var mid := Drop(d, a);
    var low := Drop(mid, b).nextHeight;
    assert d.inFlight - a - b == d.inFlight - (a + b);
    assert IsLowest(d.inFlight, a, d.nextHeight, mid.nextHeight);
    assert IsLowest(mid.inFlight, b, mid.nextHeight, low);
    assert forall h :: h in b ==> h in mid.inFlight && mid.inFlight[h] == d.inFlight[h];
    forall h | h in a + b
      ensures low <= d.inFlight[h].height
    {
      assert h in a ==> mid.nextHeight <= d.inFlight[h].height;
      assert h in b ==> low <= mid.inFlight[h].height;
    }
    LowestUnique(d.inFlight, a + b, d.nextHeight, low);
  }
}
