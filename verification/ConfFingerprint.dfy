/** The two fingerprints that decide between restarting an AWG interface and re-syncing its peers
    (internal/awg/instance.go, internal/awg/manager.go). */
module ConfFingerprint {
  import opened Text
  import opened ConfModel
  import opened ConfRender
  import opened ConfRoundTrip

  const PEER_MARK := "\n[Peer]\n"

  /** strings.Cut at a substring. */
  function Before(s: string, mark: string): string {
    if mark <= s || s == [] then [] else [s[0]] + Before(s[1..], mark)
  }

  function DeviceFingerprint(conf: string): string { Before(conf, PEER_MARK) }

  lemma MarkShape()
    ensures |PEER_MARK| == 8 && PEER_MARK[0] == '\n' && PEER_MARK[1] == '[' && PEER_MARK[7] == '\n'
    ensures PEER_MARK[1..7] == "[Peer]" && '\n' !in PEER_MARK[1..7]
  {
  }

  /** No mark starts inside a line. */
  lemma {:induction false} BeforeLine(line: string, rest: string)
    requires Free(line, '\n')
    ensures Before(line + rest, PEER_MARK) == line + Before(rest, PEER_MARK)
  {
    MarkShape();
    if line == [] {
      assert line + rest == rest;
    } else {
      assert (line + rest)[1..] == line[1..] + rest;
      assert (line + rest)[0] == line[0] != '\n';
      BeforeLine(line[1..], rest);
      assert line == [line[0]] + line[1..];
    }
  }

  /** A newline starts the mark exactly when the line after it is [Peer]. */
  lemma MarkAtNewline(next: string, rest: string)
    requires Free(next, '\n') && next != "[Peer]"
    ensures !(PEER_MARK <= "\n" + (next + "\n" + rest))
  {
    MarkShape();
    var s := "\n" + (next + "\n" + rest);
    if |next| < 6 {
      assert s[|next| + 1] == '\n';
      assert PEER_MARK[|next| + 1] == PEER_MARK[1..7][|next|];
    } else if |next| == 6 {
      var i :| 0 <= i < 6 && next[i] != PEER_MARK[1..7][i];
      assert s[i + 1] == next[i];
    } else {
      assert s[7] == next[6];
    }
  }

  predicate NoPeerLine(lines: seq<string>) { forall l <- lines :: Free(l, '\n') && l != "[Peer]" }

  predicate Tail(tail: string) { tail == [] || PEER_MARK <= tail }

  lemma NotMarked(lines: seq<string>, tail: string)
    requires NoPeerLine(lines) && Tail(tail)
    ensures !(PEER_MARK <= "\n" + (Unlines(lines) + tail))
  {
    MarkShape();
    if lines == [] {
      assert Unlines(lines) + tail == tail;
      if tail != [] {
        assert ("\n" + tail)[1] == '\n';
      }
    } else {
      var rest := Unlines(lines[1..]) + tail;
      assert Unlines(lines) + tail == lines[0] + "\n" + rest;
      MarkAtNewline(lines[0], rest);
    }
  }

  /** Lines that hold no [Peer] are never cut; what follows them is cut at its own first mark. */
  lemma {:induction false} BeforeLines(lines: seq<string>, tail: string)
    requires NoPeerLine(lines) && Tail(tail)
    ensures Before(Unlines(lines) + tail, PEER_MARK) == Unlines(lines)
  {
    if lines == [] {
      assert Unlines(lines) + tail == tail;
    } else {
      var rest := Unlines(lines[1..]) + tail;
      NotMarked(lines[1..], tail);
      BeforeLines(lines[1..], tail);
      BeforeNewline(lines[0], rest, Unlines(lines[1..]));
      assert Unlines(lines) + tail == lines[0] + ("\n" + rest);
    }
  }

  lemma BeforeNewline(line: string, rest: string, cut: string)
    requires Free(line, '\n') && !(PEER_MARK <= "\n" + rest) && Before(rest, PEER_MARK) == cut
    ensures Before(line + ("\n" + rest), PEER_MARK) == line + "\n" + cut
  {
    BeforeLine(line, "\n" + rest);
    assert ("\n" + rest)[1..] == rest;
    Assoc(line, "\n", cut);
  }

  lemma {:induction false} FieldLinesNoPeer(inst: Instance, host: Host, keys: seq<Key>)
    requires HooksOnOneLine(host)
    ensures NoPeerLine(FieldLines(inst, host, keys))
  {
    if keys != [] {
      ValueFree(inst, host, keys[0]);
      NamePlain(keys[0]);
      assert "[Peer]"[0] == '[';
      FieldLinesNoPeer(inst, host, keys[1..]);
    }
  }

  lemma PeersTail(peers: seq<Peer>)
    ensures peers == [] ==> Unlines(PeersLines(peers)) == []
    ensures peers != [] ==> PEER_MARK <= Unlines(PeersLines(peers))
  {
    if peers != [] {
      UnlinesAppend(PeerLines(peers[0]), PeersLines(peers[1..]));
      PeerText(peers[0]);
      PeerHeaderText();
    }
  }

  lemma DeviceLinesNoPeer(inst: Instance, host: Host)
    requires HooksOnOneLine(host)
    ensures NoPeerLine(DeviceLines(inst, host))
  {
    FieldLinesNoPeer(inst, host, RENDER_ORDER);
    assert "[Interface]"[1] == 'I' && "[Peer]"[1] == 'P';
  }

  /** The device fingerprint of a rendered file is its interface half, whatever its peers are. */
  lemma FingerprintIsDevice(inst: Instance, host: Host)
    requires HooksOnOneLine(host)
    ensures DeviceFingerprint(Render(inst, host)) == DeviceText(inst, host)
  {
    DeviceLinesNoPeer(inst, host);
    PeersTail(inst.peers);
    BeforeLines(DeviceLines(inst, host), Unlines(PeersLines(inst.peers)));
  }

  lemma FieldsIgnorePeers(inst: Instance, peers: seq<Peer>, host: Host, k: Key)
    ensures TextField(inst.(peers := peers), k) == TextField(inst, k)
    ensures NumberField(inst.(peers := peers), k) == NumberField(inst, k)
    ensures Value(inst.(peers := peers), host, k) == Value(inst, host, k)
  {
  }

  lemma GatesIgnorePeers(inst: Instance, peers: seq<Peer>, host: Host, k: Key)
    ensures Emits(inst.(peers := peers), host, k) == Emits(inst, host, k)
  {
    FieldsIgnorePeers(inst, peers, host, k);
    if GateOf(k).Packet? { PacketsIgnorePeers(inst, peers); }
  }

  lemma PacketsIgnorePeers(inst: Instance, peers: seq<Peer>)
    ensures PacketsFit(inst.(peers := peers)) == PacketsFit(inst)
  {
    assert IBytes(inst.(peers := peers)) == IBytes(inst);
  }

  lemma {:induction false} FieldLinesIgnorePeers(inst: Instance, peers: seq<Peer>, host: Host, keys: seq<Key>)
    ensures FieldLines(inst.(peers := peers), host, keys) == FieldLines(inst, host, keys)
  {
    if keys != [] {
      FieldsIgnorePeers(inst, peers, host, keys[0]);
      GatesIgnorePeers(inst, peers, host, keys[0]);
      FieldLinesIgnorePeers(inst, peers, host, keys[1..]);
    }
  }

  /** Two instances that differ only in their peers share a device fingerprint. */
  lemma PeersDoNotMoveFingerprint(inst: Instance, peers: seq<Peer>, host: Host)
    requires HooksOnOneLine(host)
    ensures DeviceFingerprint(Render(inst.(peers := peers), host)) == DeviceFingerprint(Render(inst, host))
  {
    FingerprintIsDevice(inst, host);
    FingerprintIsDevice(inst.(peers := peers), host);
    FieldLinesIgnorePeers(inst, peers, host, RENDER_ORDER);
  }

  // ---------------------------------------------------------------- the peer fingerprint

  function PeerParts(p: Peer): seq<string> { [p.privateKey, p.publicKey, p.psk, p.allowedIPs] }

  function AllParts(peers: seq<Peer>): seq<string> {
    if peers == [] then [] else PeerParts(peers[0]) + AllParts(peers[1..])
  }

  function PeerFingerprint(peers: seq<Peer>): string { Join(AllParts(peers), '|') }

  /** peerFingerprint appends the four fields of every peer, then joins. */
  method ComputePeerFingerprint(peers: seq<Peer>) returns (fp: string)
    ensures fp == PeerFingerprint(peers)
  {
    var parts: seq<string> := [];
    for i := 0 to |peers|
      invariant AllParts(peers) == parts + AllParts(peers[i..])
    {
      var p := peers[i];
      assert peers[i..][1..] == peers[i + 1..];
      Assoc(parts, PeerParts(p), AllParts(peers[i + 1..]));
      parts := parts + [p.privateKey, p.publicKey, p.psk, p.allowedIPs];
    }
    assert parts + AllParts(peers[|peers|..]) == parts;
    fp := Join(parts, '|');
  }

  predicate BarFree(peers: seq<Peer>) { AllFree(AllParts(peers), '|') }

  lemma JoinedHasBar(parts: seq<string>)
    requires |parts| >= 2
    ensures Join(parts, '|') != []
  {
  }

  lemma {:induction false} PartsInjective(a: seq<Peer>, b: seq<Peer>)
    requires AllParts(a) == AllParts(b)
    ensures a == b
  {
    if a != [] && b != [] {
      var x, y := AllParts(a), AllParts(b);
      assert x[..4] == PeerParts(a[0]) && y[..4] == PeerParts(b[0]);
      assert x[4..] == AllParts(a[1..]) && y[4..] == AllParts(b[1..]);
      assert PeerParts(a[0])[0] == PeerParts(b[0])[0] && PeerParts(a[0])[1] == PeerParts(b[0])[1];
      assert PeerParts(a[0])[2] == PeerParts(b[0])[2] && PeerParts(a[0])[3] == PeerParts(b[0])[3];
      PartsInjective(a[1..], b[1..]);
      assert a == [a[0]] + a[1..] && b == [b[0]] + b[1..];
    } else {
      assert |AllParts(a)| == 0 || |AllParts(b)| == 0;
    }
  }

  /** Over fields without '|', equal peer fingerprints mean equal peers, hence equal [Peer] sections. */
  lemma PeerFingerprintInjective(a: seq<Peer>, b: seq<Peer>)
    requires BarFree(a) && BarFree(b)
    requires PeerFingerprint(a) == PeerFingerprint(b)
    ensures a == b && PeersLines(a) == PeersLines(b)
  {
    var x, y := AllParts(a), AllParts(b);
    if x == [] || y == [] {
      if x != [] { JoinedHasBar(x); }
      if y != [] { JoinedHasBar(y); }
    } else {
      SplitJoin(x, '|');
      SplitJoin(y, '|');
    }
    PartsInjective(a, b);
  }

  function Bars(s: string): nat { if s == [] then 0 else (if s[0] == '|' then 1 else 0) + Bars(s[1..]) }

  lemma {:induction false} BarsAppend(a: string, b: string)
    ensures Bars(a + b) == Bars(a) + Bars(b)
  {
    if a == [] {
      assert a + b == b;
    } else {
      assert (a + b)[1..] == a[1..] + b;
      BarsAppend(a[1..], b);
    }
  }

  lemma {:induction false} NoBars(s: string)
    ensures Bars(s) == 0 <==> Free(s, '|')
  {
    if s != [] {
      NoBars(s[1..]);
      assert s == [s[0]] + s[1..];
    }
  }

  /** The bars between the parts, and no others exactly when the parts hold none. */
  lemma {:induction false} JoinedBars(parts: seq<string>)
    requires parts != []
    ensures Bars(Join(parts, '|')) >= |parts| - 1
    ensures Bars(Join(parts, '|')) == |parts| - 1 <==> AllFree(parts, '|')
  {
    NoBars(parts[0]);
    if |parts| > 1 {
      var rest := parts[1..];
      JoinedBars(rest);
      assert Join(parts, '|') == parts[0] + (['|'] + Join(rest, '|'));
      BarsAppend(parts[0], ['|'] + Join(rest, '|'));
      BarsAppend(['|'], Join(rest, '|'));
      assert Bars(['|']) == 1;
      assert parts == [parts[0]] + rest;
    } else {
      assert parts == [parts[0]];
    }
  }

  lemma PartsCount(peers: seq<Peer>)
    ensures |AllParts(peers)| == 4 * |peers|
  {
  }

  ghost predicate Collides(a: seq<Peer>) { exists b: seq<Peer> :: b != a && PeerFingerprint(b) == PeerFingerprint(a) }

  /** One bar-free peer, or none, is told apart from every other list. */
  lemma OnePeerIsTold(a: seq<Peer>, b: seq<Peer>)
    requires |a| <= 1 && BarFree(a) && PeerFingerprint(a) == PeerFingerprint(b)
    ensures b == a
  {
    PartsCount(a);
    PartsCount(b);
    var x, y := AllParts(a), AllParts(b);
    if x == [] {
      if y != [] { JoinedHasBar(y); }
    } else {
      if y == [] { JoinedHasBar(x); }
      JoinedBars(x);
      JoinedBars(y);
      PeerFingerprintInjective(a, b);
    }
  }

  lemma {:induction false} JoinAppend(x: seq<string>, y: seq<string>)
    requires x != [] && y != []
    ensures Join(x + y, '|') == Join(x, '|') + "|" + Join(y, '|')
    decreases |x|
  {
    assert (x + y)[1..] == x[1..] + y;
    if |x| > 1 {
      JoinAppend(x[1..], y);
    } else {
      assert x[1..] + y == y;
    }
  }

  /** Everything after the first three fields can be taken for one address field. */
  lemma ManyFoldIntoOne(a: seq<Peer>)
    requires |a| >= 2
    ensures Collides(a)
  {
    var p, rest := a[0], AllParts(a[1..]);
    PartsCount(a[1..]);
    var b := [p.(allowedIPs := p.allowedIPs + "|" + Join(rest, '|'))];
    FingerprintOfOne(b[0]);
    JoinFour(p.privateKey, p.publicKey, p.psk, p.allowedIPs);
    JoinAppend(PeerParts(p), rest);
    assert PeerFingerprint(b) == PeerFingerprint(a);
    assert |b| != |a|;
  }

  /** The same text with two neighbouring parts read as one. */
  function MergeAt(parts: seq<string>, i: nat): seq<string>
    requires i + 1 < |parts|
  {
    parts[..i] + [parts[i] + "|" + parts[i + 1]] + parts[i + 2..]
  }

  lemma {:induction false} MergeSame(parts: seq<string>, i: nat)
    requires i + 1 < |parts|
    ensures Join(MergeAt(parts, i), '|') == Join(parts, '|')
  {
    var merged := MergeAt(parts, i);
    if i == 0 {
      assert merged[1..] == parts[2..] == parts[1..][1..];
    } else {
      assert merged[0] == parts[0] && merged[1..] == MergeAt(parts[1..], i - 1);
      MergeSame(parts[1..], i - 1);
    }
  }

  /** The parts with the one at i cut in two at its first bar. */
  function CutPart(parts: seq<string>, i: nat): (t: seq<string>)
    requires i < |parts|
    ensures |t| == |parts| + 1
  {
    parts[..i] + [Cut(parts[i], '|').0, Cut(parts[i], '|').1] + parts[i + 1..]
  }

  lemma MergeOfCut(parts: seq<string>, i: nat)
    requires i < |parts| && !Free(parts[i], '|')
    ensures MergeAt(CutPart(parts, i), i) == parts
  {
    var t := CutPart(parts, i);
    CutParts(parts[i], '|');
    assert t[i] + "|" + t[i + 1] == parts[i];
    assert t[..i] == parts[..i] && t[i + 2..] == parts[i + 1..];
  }

  /** Merging a different pair gives different parts. */
  lemma OtherMerge(parts: seq<string>, i: nat) returns (j: nat)
    requires i < |parts| && |parts| > 1 && !Free(parts[i], '|')
    ensures j < |parts| && MergeAt(CutPart(parts, i), j) != parts
  {
    var t := CutPart(parts, i);
    CutParts(parts[i], '|');
    if i == 0 {
      j := |parts| - 1;
      assert MergeAt(t, j)[0] == t[0] && |t[0]| < |parts[0]|;
    } else {
      j := i - 1;
      assert MergeAt(t, j)[j] == t[j] + "|" + t[i] && t[j] == parts[j];
    }
  }

  function PeerFrom(parts: seq<string>): Peer
    requires |parts| == 4
  {
    Peer(parts[0], parts[1], parts[2], parts[3])
  }

  /** A bar inside a field can be taken for the end of that field. */
  lemma BarFoldsAway(p: Peer)
    requires !BarFree([p])
    ensures Collides([p])
  {
    var parts := PeerParts(p);
    OnePart(p);
    var i :| 0 <= i < 4 && !Free(parts[i], '|');
    var j := OtherMerge(parts, i);
    MergeOfCut(parts, i);
    MergeSame(CutPart(parts, i), i);
    MergeSame(CutPart(parts, i), j);
    OtherPeer(p, MergeAt(CutPart(parts, i), j));
  }

  lemma OnePart(p: Peer)
    ensures AllParts([p]) == PeerParts(p)
  {
    assert [p][1..] == [];
    assert AllParts([]) == [];
  }

  lemma OtherPeer(p: Peer, parts: seq<string>)
    requires |parts| == 4 && parts != PeerParts(p) && Join(parts, '|') == Join(PeerParts(p), '|')
    ensures Collides([p])
  {
    var q := PeerFrom(parts);
    assert PeerParts(q) == parts;
    OnePart(p);
    OnePart(q);
    assert [q][0] != [p][0];
    assert [q] != [p] && PeerFingerprint([q]) == PeerFingerprint([p]);
  }

  /** Another list of peers shares the fingerprint, so that an edit to it is missed, exactly when there are two or more
      peers or some field holds a '|'. */
  lemma PeerFingerprintCollidesIff(a: seq<Peer>)
    ensures Collides(a) <==> |a| >= 2 || !BarFree(a)
  {
    if |a| >= 2 {
      ManyFoldIntoOne(a);
    } else if !BarFree(a) {
      assert a == [a[0]];
      BarFoldsAway(a[0]);
    } else if Collides(a) {
      var b: seq<Peer> :| b != a && PeerFingerprint(b) == PeerFingerprint(a);
      OnePeerIsTold(a, b);
    }
  }

  lemma FingerprintOfOne(p: Peer)
    ensures PeerFingerprint([p]) == p.privateKey + "|" + p.publicKey + "|" + p.psk + "|" + p.allowedIPs
  {
    assert AllParts([p]) == PeerParts(p);
    JoinFour(p.privateKey, p.publicKey, p.psk, p.allowedIPs);
  }

  lemma JoinFour(a: string, b: string, c: string, d: string)
    ensures Join([a, b, c, d], '|') == a + "|" + b + "|" + c + "|" + d
  {
    assert [a, b, c, d][1..] == [b, c, d] && [b, c, d][1..] == [c, d] && [c, d][1..] == [d];
    assert Join([c, d], '|') == c + "|" + d;
    assert Join([b, c, d], '|') == b + "|" + Join([c, d], '|');
  }
}
