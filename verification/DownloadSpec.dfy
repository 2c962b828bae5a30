/** The sliding window of block downloads: its state and every event that changes it. */
module DownloadSpec {
  import opened Basics
  import opened Types

  const WINDOW_SIZE := 512
  const PER_PEER_LIMIT := 48
  const REFILL_THRESHOLD := 128
  const MAX_PENDING_BLOCKS := 1024

  type Peer = nat

  datatype Req = Req(peer: Peer, height: nat)

  type Requests = map<Hash, Req>

  datatype Window = Window(
    inFlight: Requests,
    nextHeight: nat,
    nextConnect: nat,
    stored: set<Hash>,
    pending: map<nat, Hash>)

  // ---------- Filling the window ----------

  function Less(a: nat, b: nat): nat { if a < b then 0 else a - b }

  function FreeSlots(d: Window): nat {
    Min(Less(WINDOW_SIZE, |d.inFlight|), Less(MAX_PENDING_BLOCKS, |d.pending| + |d.inFlight|))
  }

  /** The block at a height is stored, requested, or waiting to be connected. */
  predicate Have(d: Window, chain: seq<Hash>, k: nat)
    requires k < |chain|
  {
    chain[k] in d.stored || chain[k] in d.inFlight || k in d.pending
  }

  datatype Scanned = Scanned(heights: seq<nat>, next: nat)

  /** Heights to request from `next` on, at most `free` of them, and where the scan stopped. */
  function Scan(d: Window, chain: seq<Hash>, next: nat, free: nat): Scanned
    decreases Less(|chain|, next)
  {
    if free == 0 || next >= |chain| then Scanned([], next)
    else if Have(d, chain, next) then Scan(d, chain, next + 1, free)
    else
      var rest := Scan(d, chain, next + 1, free - 1);
      Scanned([next] + rest.heights, rest.next)
  }

  function OfPeer(inFlight: Requests, p: Peer): set<Hash> {
    set h | h in inFlight && inFlight[h].peer == p
  }

  datatype Room = Room(peer: Peer, free: nat)

  /** Peers that may still be asked, in order, with the number of requests each can take. */
  function Rooms(inFlight: Requests, peers: seq<Peer>, excluded: set<Peer>): seq<Room> {
    if peers == [] then []
    else
      var init, p := Rooms(inFlight, peers[..|peers| - 1], excluded), peers[|peers| - 1];
      var free := Less(PER_PEER_LIMIT, |OfPeer(inFlight, p)|);
      if p in excluded || free == 0 then init else init + [Room(p, free)]
  }

  function Repeat(p: Peer, n: nat): seq<Peer> {
    seq(n, _ => p)
  }

  /** One place for each request the peers can take, a peer's places together. */
  function Slots(rooms: seq<Room>): seq<Peer> {
    if rooms == [] then []
    else Slots(rooms[..|rooms| - 1]) + Repeat(rooms[|rooms| - 1].peer, rooms[|rooms| - 1].free)
  }

  /** The peers of the first `n` requests, as far as the places go. */
  function Allot(rooms: seq<Room>, n: nat): seq<Peer> {
    Slots(rooms)[..Min(n, |Slots(rooms)|)]
  }

  predicate InChain(chain: seq<Hash>, heights: seq<nat>) {
    forall i :: 0 <= i < |heights| ==> heights[i] < |chain|
  }

  /** Requests whose message was sent become in-flight. */
  function Commit(inFlight: Requests, chain: seq<Hash>, heights: seq<nat>, peers: seq<Peer>,
      failing: set<Peer>): Requests
    requires |peers| <= |heights| && InChain(chain, heights)
  {
    if peers == [] then inFlight
    else
      var i := |peers| - 1;
      var base := Commit(inFlight, chain, heights, peers[..i], failing);
      if peers[i] in failing then base else base[chain[heights[i]] := Req(peers[i], heights[i])]
  }

  /** The lowest height whose message could not be sent, if below `next`. */
  function FailedNext(next: nat, heights: seq<nat>, peers: seq<Peer>, failing: set<Peer>): nat
    requires |peers| <= |heights|
  {
    if peers == [] then next
    else
      var i := |peers| - 1;
      var low := FailedNext(next, heights, peers[..i], failing);
      if peers[i] in failing then Min(low, heights[i]) else low
  }

  predicate Scans(d: Window, chain: seq<Hash>, peers: seq<Peer>) {
    !(FreeSlots(d) < REFILL_THRESHOLD && d.inFlight != map[]) && peers != [] && d.nextHeight < |chain|
  }

  /** Heights found by the scan are given out; the rest is left for the next call. */
  function Assigned(d: Window, chain: seq<Hash>, s: Scanned, given: seq<Peer>, failing: set<Peer>): Window
    requires |given| <= |s.heights| && InChain(chain, s.heights)
  {
    var next := if |given| < |s.heights| then Min(s.next, s.heights[|given|]) else s.next;
    d.(inFlight := Commit(d.inFlight, chain, s.heights, given, failing),
       nextHeight := FailedNext(next, s.heights, given, failing))
  }

  lemma {:induction false} ScanInChain(d: Window, chain: seq<Hash>, next: nat, free: nat)
    ensures InChain(chain, Scan(d, chain, next, free).heights)
    decreases Less(|chain|, next)
  {
    if free > 0 && next < |chain| {
      ScanInChain(d, chain, next + 1, if Have(d, chain, next) then free else free - 1);
    }
  }

  /** `fill_window`. When no peer has room it stops after the scan has moved `nextHeight`. */
  function Fill(d: Window, chain: seq<Hash>, peers: seq<Peer>, excluded: set<Peer>, failing: set<Peer>): Window {
    if !Scans(d, chain, peers) then d
    else
      var s := Scan(d, chain, d.nextHeight, FreeSlots(d));
      var rooms := Rooms(d.inFlight, peers, excluded);
      if s.heights == [] || rooms == [] then d.(nextHeight := s.next)
      else
        ScanInChain(d, chain, d.nextHeight, FreeSlots(d));
        Assigned(d, chain, s, Allot(rooms, |s.heights|), failing)
  }

  // ---------- The other events ----------

  function Redownload(d: Window, height: nat): Window {
    d.(nextHeight := Min(d.nextHeight, height))
  }

  function Connected(d: Window, hash: Hash): Window {
    d.(stored := d.stored + {hash}, nextConnect := d.nextConnect + 1)
  }

  /** Waiting blocks are connected in order until a gap or a failure. */
  function Drain(d: Window, connects: Hash -> bool): Window
    decreases |d.pending|
  {
    if d.nextConnect !in d.pending then d
    else
      var hash := d.pending[d.nextConnect];
      var rest := d.(pending := d.pending - {d.nextConnect});
      if !connects(hash) then Redownload(rest, rest.nextConnect) else Drain(Connected(rest, hash), connects)
  }

  /** `handle_received_block`; `valid` and `connects` are the verdicts of validation and of the
      chain state. */
  function Receive(d: Window, hash: Hash, valid: bool, connects: Hash -> bool): Window {
    if hash !in d.inFlight then d
    else
      var height := d.inFlight[hash].height;
      var rest := d.(inFlight := d.inFlight - {hash});
      if !valid then Redownload(rest, height)
      else if height == d.nextConnect then
        if connects(hash) then Drain(Connected(rest, hash), connects) else Redownload(rest, height)
      else if height > d.nextConnect then
        if |d.pending| >= MAX_PENDING_BLOCKS then Redownload(rest, height)
        else rest.(pending := d.pending[height := hash])
      else rest.(stored := d.stored + {hash})
  }

  /** The lowest height among dropped requests and `next`. */
  ghost predicate IsLowest(inFlight: Requests, gone: set<Hash>, next: nat, m: nat) {
    && m <= next && (forall h :: h in gone && h in inFlight ==> m <= inFlight[h].height)
    && (m == next || exists h :: h in gone && h in inFlight && inFlight[h].height == m)
  }

  ghost function Lowest(inFlight: Requests, gone: set<Hash>, next: nat): (m: nat)
    ensures IsLowest(inFlight, gone, next, m)
    decreases gone
  {
    if gone == {} then next
    else
      var h :| h in gone;
      var m := Lowest(inFlight, gone - {h}, next);
      assert IsLowest(inFlight, gone - {h}, next, m);
      if h in inFlight && inFlight[h].height < m then inFlight[h].height else m
  }

  /** Requests given up, to be made again. */
  ghost function Drop(d: Window, gone: set<Hash>): Window {
    d.(inFlight := d.inFlight - gone, nextHeight := Lowest(d.inFlight, gone, d.nextHeight))
  }

  function Expired(inFlight: Requests, stale: set<Hash>, struck: set<Peer>): set<Hash> {
    set h | h in inFlight && (h in stale || inFlight[h].peer in struck)
  }

  /** `handle_timeout_scan`: stale requests, and all requests of peers that struck out. */
  ghost function TimeOut(d: Window, stale: set<Hash>, struck: set<Peer>): Window {
    Drop(d, Expired(d.inFlight, stale, struck))
  }

  /** `handle_peer_disconnect`. */
  ghost function PeerGone(d: Window, peer: Peer): Window {
    Drop(d, OfPeer(d.inFlight, peer))
  }

  /** `handle_reorg`. */
  function Reset(d: Window, newTip: nat): Window {
    Window(map[], newTip + 1, newTip + 1, d.stored, map[])
  }
}
