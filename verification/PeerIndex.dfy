/** The index that attributes a packet to a peer by its tunnel address (internal/amneziawgnet/identity.go). */
module PeerIndex {
  import opened Text

  /** An address is its bits, most significant first, 32 or 128 of them; a zoned one matches no prefix. */
  datatype Addr = Addr(bits: seq<bool>, zoned: bool)

  /** The address part keeps its host bits; only the first length bits count. */
  datatype Prefix = Prefix(bits: seq<bool>, length: nat)

  predicate ValidPrefix(p: Prefix) { p.length <= |p.bits| }

  predicate Contains(p: Prefix, a: Addr)
    requires ValidPrefix(p)
  {
    !a.zoned && |a.bits| == |p.bits| && a.bits[..p.length] == p.bits[..p.length]
  }

  datatype Peer = Peer(email: string, allowedIPs: seq<string>)

  datatype Indexed = Indexed(prefix: Prefix, peer: Peer)

  /** netip.ParsePrefix. */
  type PrefixParser = string -> Option<Prefix>

  ghost predicate Sane(parse: PrefixParser) { forall s :: parse(s).Some? ==> ValidPrefix(parse(s).value) }

  function OfPeer(p: Peer, texts: seq<string>, parse: PrefixParser): seq<Indexed> {
    if texts == [] then []
    else
      OfPeer(p, texts[..|texts| - 1], parse)
      + var prefix := parse(texts[|texts| - 1]); if prefix.None? then [] else [Indexed(prefix.value, p)]
  }

  function Entries(peers: seq<Peer>, parse: PrefixParser): seq<Indexed> {
    if peers == [] then []
    else
      var p := peers[|peers| - 1];
      Entries(peers[..|peers| - 1], parse) + OfPeer(p, p.allowedIPs, parse)
  }

  predicate AllValid(entries: seq<Indexed>) { forall e <- entries :: ValidPrefix(e.prefix) }

  /** The inner loop of NewPeerIndex. */
  method IndexPeer(p: Peer, parse: PrefixParser) returns (own: seq<Indexed>)
    requires Sane(parse)
    ensures own == OfPeer(p, p.allowedIPs, parse) && AllValid(own)
  {
    own := [];
    for j := 0 to |p.allowedIPs|
      invariant own == OfPeer(p, p.allowedIPs[..j], parse) && AllValid(own)
    {
      assert p.allowedIPs[..j + 1][..j] == p.allowedIPs[..j];
      var prefix := parse(p.allowedIPs[j]);
      if prefix.None? { continue; }
      own := own + [Indexed(prefix.value, p)];
    }
    assert p.allowedIPs[..|p.allowedIPs|] == p.allowedIPs;
  }

  class PeerIndex {
    var entries: seq<Indexed>

    ghost predicate Valid()
      reads this
    {
      AllValid(entries)
    }

    /** NewPeerIndex: what does not parse is skipped. */
    constructor (peers: seq<Peer>, parse: PrefixParser)
      requires Sane(parse)
      ensures Valid() && entries == Entries(peers, parse)
    {
      var all: seq<Indexed> := [];
      for i := 0 to |peers|
        invariant all == Entries(peers[..i], parse) && AllValid(all)
      {
        assert peers[..i + 1][..i] == peers[..i];
        var own := IndexPeer(peers[i], parse);
        all := all + own;
      }
      assert peers[..|peers|] == peers;
      entries := all;
    }

    /** Lookup: the longest matching prefix wins, the first listed among equals; nothing is found exactly when nothing
        matches. */
    method Lookup(addr: Addr) returns (peer: Option<Peer>, ghost at: nat)
      requires Valid()
      ensures peer.None? <==> forall e <- entries :: !Contains(e.prefix, addr)
      ensures peer.Some? ==> Best(entries, addr, at) && peer.value == entries[at].peer
    {
      var bestBits: int := -1;
      peer, at := None, 0;
      for i := 0 to |entries|
        invariant bestBits >= 0 <==> peer.Some?
        invariant peer.None? ==> bestBits == -1 && forall k :: 0 <= k < i ==> !Contains(entries[k].prefix, addr)
        invariant peer.Some? ==> at < i && Best(entries[..i], addr, at) && peer.value == entries[at].peer
        invariant peer.Some? ==> bestBits == entries[at].prefix.length
      {
        var e := entries[i];
        assert entries[..i + 1] == entries[..i] + [e];
        if e.prefix.length <= bestBits || !Contains(e.prefix, addr) { continue; }
        bestBits, peer, at := e.prefix.length, Some(e.peer), i;
      }
      assert entries[..|entries|] == entries;
    }
  }

  /** The entry matches, nothing that matches is longer, and nothing listed before it is as long. */
  ghost predicate Best(entries: seq<Indexed>, addr: Addr, at: nat)
    requires AllValid(entries)
  {
    && at < |entries| && Contains(entries[at].prefix, addr)
    && forall k :: 0 <= k < |entries| && Contains(entries[k].prefix, addr) ==>
         entries[k].prefix.length <= entries[at].prefix.length
         && (k < at ==> entries[k].prefix.length < entries[at].prefix.length)
  }

  /** Of two matching prefixes the longer one lies inside the shorter. */
  lemma MatchesNest(p: Prefix, q: Prefix, a: Addr, b: Addr)
    requires ValidPrefix(p) && ValidPrefix(q) && Contains(p, a) && Contains(q, a) && p.length <= q.length
    requires Contains(q, b)
    ensures Contains(p, b)
  {
    assert p.bits[..p.length] == a.bits[..p.length] == a.bits[..q.length][..p.length];
    assert b.bits[..p.length] == b.bits[..q.length][..p.length];
  }
}
