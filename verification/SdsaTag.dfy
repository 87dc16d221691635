/** The SDSA tag between the addresses and the EtherType of a frame, put in and taken out in place. */
module SdsaTag {
  import opened Wrappers

  const ETH_ALEN := 6
  const ETH_HLEN := 14
  const DSA_HLEN := 4
  const SDSA_HLEN := 8

  /** 2 * ETH_ALEN: where the tag goes. */
  const ADDRS := 12

  /** A port of the tree, in list order. */
  datatype UserPort = UserPort(dsIndex: bv32, index: bv32, isUser: bool)

  /** The two bytes of the tag that name the port; the first has FROM_CPU and, for a frame that had an
      802.1Q tag, the tagged bit. */
  function DeviceByte(tagged: bool, dsIndex: bv32): bv8 {
    (if tagged then 0x60 else 0x40) | (((dsIndex & 0x3e0) >> 5) as bv8)
  }

  function PortByte(index: bv32): bv8 {
    ((index << 3) & 0xff) as bv8
  }

  /** source_port */
  function SourcePort(device: bv8, port: bv8): bv32 {
    (((device & 0x1f) as bv32) << 5) + (((port & 0xf8) >> 3) as bv32)
  }

  /** ETH_P_SDSA and the DSA tag; the VLAN bytes follow. */
  function Tag(tagged: bool, p: UserPort): (t: seq<bv8>)
    ensures |t| == 6
  {
    [0xdc, 0xdc, 0, 0, DeviceByte(tagged, p.dsIndex), PortByte(p.index)]
  }

  /** The frame that sdsa_xmit makes. */
  ghost function XmitFrame(f: seq<bv8>, tagged: bool, p: UserPort): seq<bv8>
    requires |f| >= ETH_HLEN
  {
    f[..ADDRS] + Tag(tagged, p) + (if tagged then f[ADDRS + 2..] else [0, 0] + f[ADDRS..])
  }

  /** dsa_conduit_find_user: the first user port of this device and index. */
  function FindUser(ports: seq<UserPort>, device: bv32, port: bv32, i: nat := 0): (r: Option<nat>)
    requires i <= |ports|
    ensures r.Some? ==> i <= r.value < |ports| && ports[r.value] == UserPort(device, port, true)
    ensures forall j :: i <= j < (if r.Some? then r.value else |ports|) ==> ports[j] != UserPort(device, port, true)
    decreases |ports| - i
  {
    if i == |ports| then None
    else if ports[i] == UserPort(device, port, true) then Some(i)
    else FindUser(ports, device, port, i + 1)
  }

  /** A frame without its tag: the tagged bit says whether to leave an 802.1Q tag. */
  ghost function Untagged(t: seq<bv8>): seq<bv8>
    requires |t| >= ETH_HLEN + SDSA_HLEN
  {
    if t[16] & 0x20 != 0 then t[..ADDRS] + [0x81, 0] + t[18..] else t[..ADDRS] + t[20..]
  }

  /** What sdsa_rcv makes of a frame, and the port it is from; None for a frame it refuses. */
  ghost function RcvFrame(t: seq<bv8>, ports: seq<UserPort>): Option<(seq<bv8>, nat)>
    requires |t| >= ETH_HLEN
  {
    if |t| < ETH_HLEN + SDSA_HLEN || t[16] & 0xc0 != 0 then None
    else match FindUser(ports, 0, SourcePort(t[16], t[17]))
      case None => None
      case Some(k) => Some((Untagged(t), k))
  }

  // ----- properties -----

  /** What the switch does to a frame that it sends back: FROM_CPU becomes TO_CPU. */
  ghost function Reflected(t: seq<bv8>): seq<bv8>
    requires |t| > 16
  {
    t[16 := t[16] & 0xbf]
  }

  lemma DeviceBits(tagged: bool, dsIndex: bv32)
    ensures DeviceByte(tagged, dsIndex) & 0xc0 == 0x40
    ensures (DeviceByte(tagged, dsIndex) & 0xbf) & 0xc0 == 0
    ensures (DeviceByte(tagged, dsIndex) & 0xbf) & 0x20 != 0 <==> tagged
  {
  }

  /** The eight bytes after the addresses: EtherType dc dc and two zeros; a byte with FROM_CPU, the tagged bit and
      bits 5 to 9 of the switch's index; a byte with bits 0 to 4 of the port's and three zero bits; and the two
      VLAN bytes, of the 802.1Q tag or zero. */
  lemma TagBytes(f: seq<bv8>, tagged: bool, p: UserPort)
    requires |f| >= ETH_HLEN
    ensures var t := XmitFrame(f, tagged, p);
      && |t| == |f| + (if tagged then 4 else 8) && t[..12] == f[..12]
      && t[12] == 0xdc && t[13] == 0xdc && t[14] == 0 && t[15] == 0
      && t[16] & 0xe0 == (if tagged then 0x60 else 0x40) && (t[16] & 0x1f) as bv32 == (p.dsIndex >> 5) & 0x1f
      && t[17] & 0x07 == 0 && (t[17] >> 3) as bv32 == p.index & 0x1f
      && t[18..] == if tagged then f[14..] else [0, 0] + f[12..]
  {
    TagPortBytes(tagged, p);
    hide DeviceByte, PortByte;
  }

  lemma TagPortBytes(tagged: bool, p: UserPort)
    ensures var device, port := DeviceByte(tagged, p.dsIndex), PortByte(p.index);
      && device & 0xe0 == (if tagged then 0x60 else 0x40) && (device & 0x1f) as bv32 == (p.dsIndex >> 5) & 0x1f
      && port & 0x07 == 0 && (port >> 3) as bv32 == p.index & 0x1f
  {
  }

  /** Which frames are taken, whatever their bytes: those with the eight bytes, TO_CPU in the top two bits, and a
      user port of switch 0 whose index is the ten bits between the tagged bit and the last three. */
  lemma RcvTakes(t: seq<bv8>, ports: seq<UserPort>)
    requires |t| >= ETH_HLEN
    ensures RcvFrame(t, ports) != None <==>
      && |t| >= 22 && t[16] & 0x80 == 0 && t[16] & 0x40 == 0
      && exists k {:trigger ports[k]} :: 0 <= k < |ports|
           && ports[k] == UserPort(0, ((t[16] & 0x1f) as bv32 << 5) | ((t[17] >> 3) as bv32), true)
    ensures RcvFrame(t, ports) != None ==>
      var (f, k) := RcvFrame(t, ports).value;
      && k < |ports|
      && ports[k] == UserPort(0, ((t[16] & 0x1f) as bv32 << 5) | ((t[17] >> 3) as bv32), true)
      && (forall j :: 0 <= j < k ==> ports[j] != ports[k])
      && f == if t[16] & 0x20 != 0 then t[..12] + [0x81, 0] + t[18..] else t[..12] + t[20..]
  {
    if |t| >= ETH_HLEN + SDSA_HLEN {
      TopBits(t[16]);
      SourcePortIs(t[16], t[17]);
      hide SourcePort;
    }
  }

  lemma TopBits(device: bv8)
    ensures device & 0xc0 != 0 <==> device & 0x80 != 0 || device & 0x40 != 0
  {
  }

  lemma SourcePortIs(device: bv8, port: bv8)
    ensures SourcePort(device, port) == ((device & 0x1f) as bv32 << 5) | ((port >> 3) as bv32)
  {
  }

  /** Of the port's and the switch's index five bits each survive. */
  lemma SourcePortOf(tagged: bool, p: UserPort)
    ensures SourcePort(DeviceByte(tagged, p.dsIndex) & 0xbf, PortByte(p.index)) == (p.dsIndex & 0x3e0) | (p.index & 0x1f)
  {
  }

  /** A frame that the CPU sent is not taken for one to the CPU. */
  lemma FromCpuRefused(f: seq<bv8>, tagged: bool, p: UserPort, ports: seq<UserPort>)
    requires |f| >= ETH_HLEN
    ensures RcvFrame(XmitFrame(f, tagged, p), ports) == None
  {
  }

  /** Round trip: the frame comes back as it was, one with an 802.1Q tag if and only if its EtherType was
      81 00. It is refused if a tagged frame has no payload after its tag, or for want of a port. */
  lemma RoundTrip(f: seq<bv8>, tagged: bool, p: UserPort, ports: seq<UserPort>)
    requires |f| >= ETH_HLEN
    ensures var r := RcvFrame(Reflected(XmitFrame(f, tagged, p)), ports);
      && (r == None <==> (tagged && |f| < ETH_HLEN + DSA_HLEN)
                         || FindUser(ports, 0, (p.dsIndex & 0x3e0) | (p.index & 0x1f)) == None)
      && (r != None ==> (r.value.0 == f <==> !tagged || f[ADDRS..ADDRS + 2] == [0x81, 0]))
  {
  }

  /** And in a tree where no two ports have the same indices, the frame is from the port it was sent on
      if and only if that is one of the first 32 ports of switch 0. */
  lemma SamePort(f: seq<bv8>, tagged: bool, ports: seq<UserPort>, k: nat)
    requires |f| >= if tagged then ETH_HLEN + DSA_HLEN else ETH_HLEN
    requires forall i, j :: 0 <= i < j < |ports| ==>
      (ports[i].dsIndex, ports[i].index) != (ports[j].dsIndex, ports[j].index)
    requires k < |ports| && ports[k].isUser
    ensures var r := RcvFrame(Reflected(XmitFrame(f, tagged, ports[k])), ports);
      (r != None && r.value.1 == k) <==> ports[k].dsIndex == 0 && ports[k].index < 32
  {
  }

  /** Port 32 of switch 0: its frame comes back as one of port 0, or is refused if there is no port 0. */
  lemma Port32IsLost(f: seq<bv8>, tagged: bool)
    requires |f| >= ETH_HLEN + DSA_HLEN
    ensures var p32, p0 := UserPort(0, 32, true), UserPort(0, 0, true);
      var t := Reflected(XmitFrame(f, tagged, p32));
      && RcvFrame(t, [p32]) == None
      && RcvFrame(t, [p32, p0]).Some? && RcvFrame(t, [p32, p0]).value.1 == 1
  {
    var p32, p0 := UserPort(0, 32, true), UserPort(0, 0, true);
    RoundTrip(f, tagged, p32, [p32]);
    RoundTrip(f, tagged, p32, [p32, p0]);
    assert FindUser([p32, p0], 0, 0) == Some(1);
    assert FindUser([p32], 0, 0) == None;
    SourcePortOf(tagged, p32);
  }

  // ----- in place -----

  lemma TagAssembles(f: seq<bv8>, tagged: bool, p: UserPort)
    requires |f| >= ADDRS + 6
    ensures var g := f[..ADDRS] + [0xdc, 0xdc, 0, 0] + f[ADDRS + 4..];
      g[..ADDRS + 4] + [DeviceByte(tagged, p.dsIndex), PortByte(p.index)] + g[ADDRS + 6..]
        == f[..ADDRS] + Tag(tagged, p) + f[ADDRS + 6..]
  {
    hide DeviceByte, PortByte;
    var g := f[..ADDRS] + [0xdc, 0xdc, 0, 0] + f[ADDRS + 4..];
    assert g[..ADDRS + 4] == f[..ADDRS] + [0xdc, 0xdc, 0, 0];
    assert g[ADDRS + 6..] == f[ADDRS + 6..];
  }

  lemma TaggedAssembles(f: seq<bv8>, g: seq<bv8>, p: UserPort)
    requires |f| >= ETH_HLEN && |g| == |f| + DSA_HLEN && g[..ADDRS] == f[..ADDRS] && g[ADDRS + DSA_HLEN..] == f[ADDRS..]
    ensures g[..ADDRS] + Tag(true, p) + g[ADDRS + 6..] == XmitFrame(f, true, p)
  {
  }

  lemma UntaggedAssembles(f: seq<bv8>, g: seq<bv8>, p: UserPort)
    requires |f| >= ETH_HLEN && |g| == |f| + SDSA_HLEN && g[..ADDRS] == f[..ADDRS] && g[ADDRS + SDSA_HLEN..] == f[ADDRS..]
    ensures var h := g[..ADDRS] + Tag(false, p) + g[ADDRS + 6..];
      h[..ADDRS + 6] + [0, 0] + h[ADDRS + 8..] == XmitFrame(f, false, p)
  {
  }

  /** The bytes after a memmove. */
  ghost function Moved(s: seq<bv8>, dst: nat, src: nat, len: nat): (t: seq<bv8>)
    requires dst + len <= |s| && src + len <= |s|
    ensures |t| == |s|
  {
    s[..dst] + s[src..src + len] + s[dst + len..]
  }

  lemma SliceOfSlice(s: seq<bv8>, a: nat, b: nat, x: nat, y: nat)
    requires a <= b <= |s| && x <= y <= b - a
    ensures s[a..b][x..y] == s[a + x..a + y]
  {
    var t, u := s[a..b][x..y], s[a + x..a + y];
    assert forall i :: 0 <= i < y - x ==> t[i] == u[i];
    assert t == u;
  }

  lemma MovedParts(s: seq<bv8>, dst: nat, src: nat, len: nat, tail: nat)
    requires dst + len <= tail <= |s| && src + len <= |s|
    ensures var t := Moved(s, dst, src, len);
      && t[dst..dst + len] == s[src..src + len]
      && t[dst + len..tail] == s[dst + len..tail]
  {
  }

  /** Moving the addresses of a frame n bytes down loses nothing of it, and back up nothing of the rest. */
  lemma GapOpened(s: seq<bv8>, data: nat, n: nat, tail: nat)
    requires n <= data && data + ADDRS <= tail <= |s|
    ensures var t := Moved(s, data - n, data, ADDRS)[data - n..tail];
      t[..ADDRS] == s[data..tail][..ADDRS] && t[ADDRS + n..] == s[data..tail][ADDRS..]
  {
    hide Moved;
    var m := Moved(s, data - n, data, ADDRS);
    MovedParts(s, data - n, data, ADDRS, tail);
    SliceOfSlice(m, data - n, tail, 0, ADDRS);
    SliceOfSlice(m, data - n, tail, ADDRS + n, tail - (data - n));
    SliceOfSlice(s, data, tail, 0, ADDRS);
    SliceOfSlice(s, data, tail, ADDRS, tail - data);
    SliceOfSlice(m, data - n + ADDRS, tail, n, tail - (data - n + ADDRS));
    SliceOfSlice(s, data - n + ADDRS, tail, n, tail - (data - n + ADDRS));
  }

  lemma GapClosed(s: seq<bv8>, mac: nat, n: nat, tail: nat)
    requires n <= mac && mac + ADDRS <= tail <= |s|
    ensures Moved(s, mac, mac - n, ADDRS)[mac..tail] == s[mac - n..mac - n + ADDRS] + s[mac..tail][ADDRS..]
  {
    hide Moved;
    var m := Moved(s, mac, mac - n, ADDRS);
    MovedParts(s, mac, mac - n, ADDRS, tail);
    SliceOfSlice(s, mac, tail, ADDRS, tail - mac);
    assert m[mac..tail] == m[mac..mac + ADDRS] + m[mac + ADDRS..tail];
  }

  ghost function EtherTypeAt(s: seq<bv8>, at: nat): (t: seq<bv8>)
    requires at + 2 <= |s|
    ensures |t| == |s|
  {
    s[..at] + [0x81, 0] + s[at + 2..]
  }

  lemma EtherTypeParts(s: seq<bv8>, mac: nat, tail: nat)
    requires mac + ETH_HLEN + SDSA_HLEN <= tail <= |s|
    ensures var t := EtherTypeAt(s, mac + 16);
      && t[mac..mac + ADDRS] == s[mac..tail][..ADDRS]
      && t[mac + DSA_HLEN..tail][ADDRS..] == [0x81, 0] + s[mac..tail][18..]
  {
    var t := EtherTypeAt(s, mac + 16);
    SliceOfSlice(s, mac, tail, 0, ADDRS);
    SliceOfSlice(s, mac, tail, 18, tail - mac);
    SliceOfSlice(t, mac + DSA_HLEN, tail, ADDRS, tail - mac - DSA_HLEN);
    assert t[mac + 16..tail] == [0x81, 0] + s[mac + 18..tail];
  }

  /** A buffer with headroom; the frame is what lies between data and tail. */
  class Skb {
    var buf: array<bv8>
    var data: nat
    var tail: nat
    /** skb->protocol is ETH_P_8021Q */
    var is8021q: bool
    var offloadFwdMark: bool

    ghost predicate Valid()
      reads this`buf, this`data, this`tail
    {
      data <= tail <= buf.Length
    }

    ghost function Frame(): seq<bv8>
      requires Valid()
      reads this`buf, this`data, this`tail, buf
    {
      buf[..][data..tail]
    }

    /** The whole frame on reception, when data is past the Ethernet header. */
    ghost function MacFrame(): seq<bv8>
      requires Valid() && data >= ETH_HLEN
      reads this`buf, this`data, this`tail, buf
    {
      buf[..][data - ETH_HLEN..tail]
    }

    constructor (frame: seq<bv8>, headroom: nat, is8021q: bool)
      ensures Valid() && fresh(buf) && Frame() == frame && data == headroom
      ensures this.is8021q == is8021q && !offloadFwdMark
    {
      var total := headroom + |frame|;
      buf := new bv8[total](i requires 0 <= i < total => if i < headroom then 0 else frame[i - headroom]);
      data, tail, this.is8021q, offloadFwdMark := headroom, total, is8021q, false;
    }

    /** skb_cow_head: room for n more bytes in front, in a larger buffer if need be. */
    method CowHead(n: nat, allocOk: bool) returns (ok: bool)
      requires Valid()
      modifies this`buf, this`data, this`tail
      ensures Valid() && Frame() == old(Frame()) && (buf == old(buf) || fresh(buf))
      ensures ok <==> old(data) >= n || allocOk
      ensures if ok then data >= n else unchanged(this)
    {
      if data >= n {
        return true;
      }
      if !allocOk {
        return false;
      }
      var grown := new bv8[buf.Length + n];
      forall i | data <= i < tail {
        grown[i + n] := buf[i];
      }
      buf, data, tail := grown, data + n, tail + n;
      return true;
    }

    /** memmove within the buffer */
    method MemMove(dst: nat, src: nat, len: nat)
      requires dst + len <= buf.Length && src + len <= buf.Length
      modifies buf
      ensures buf[..] == Moved(old(buf[..]), dst, src, len)
    {
      forall i | 0 <= i < len {
        buf[dst + i] := buf[src + i];
      }
    }

    /** skb_push, and the addresses to the new front: a gap of n bytes after them. */
    method OpenGap(n: nat)
      requires Valid() && |Frame()| >= ETH_HLEN && data >= n
      modifies this`data, buf
      ensures Valid() && data == old(data) - n
      ensures Frame()[..ADDRS] == old(Frame())[..ADDRS] && Frame()[ADDRS + n..] == old(Frame())[ADDRS..]
    {
      GapOpened(buf[..], data, n, tail);
      hide Moved;
      data := data - n;
      MemMove(data, data + n, 2 * ETH_ALEN);
    }

    method WriteEtherTypeOfTag()
      requires Valid() && |Frame()| >= ADDRS + 4
      modifies buf
      ensures Frame() == old(Frame())[..ADDRS] + [0xdc, 0xdc, 0, 0] + old(Frame())[ADDRS + 4..]
    {
      var header := data + 2 * ETH_ALEN;
      buf[header] := 0xdc;
      buf[header + 1] := 0xdc;
      buf[header + 2] := 0;
      buf[header + 3] := 0;
    }

    method WritePortBytes(device: bv8, port: bv8)
      requires Valid() && |Frame()| >= ADDRS + 6
      modifies buf
      ensures Frame() == old(Frame())[..ADDRS + 4] + [device, port] + old(Frame())[ADDRS + 6..]
    {
      buf[data + 2 * ETH_ALEN + 4] := device;
      buf[data + 2 * ETH_ALEN + 5] := port;
    }

    /** The bytes of the tag that both halves of sdsa_xmit write. */
    method WriteTag(tagged: bool, p: UserPort)
      requires Valid() && |Frame()| >= ADDRS + 6
      modifies buf
      ensures Frame() == old(Frame())[..ADDRS] + Tag(tagged, p) + old(Frame())[ADDRS + 6..]
    {
      hide DeviceByte, PortByte;
      TagAssembles(Frame(), tagged, p);
      WriteEtherTypeOfTag();
      WritePortBytes(DeviceByte(tagged, p.dsIndex), PortByte(p.index));
    }

    method WriteVlan()
      requires Valid() && |Frame()| >= ADDRS + SDSA_HLEN
      modifies buf
      ensures Frame() == old(Frame())[..ADDRS + 6] + [0, 0] + old(Frame())[ADDRS + 8..]
    {
      buf[data + 2 * ETH_ALEN + 6] := 0;
      buf[data + 2 * ETH_ALEN + 7] := 0;
    }

    /** sdsa_xmit after skb_cow_head. */
    method InsertTag(p: UserPort)
      requires Valid() && |Frame()| >= ETH_HLEN && data >= if is8021q then DSA_HLEN else SDSA_HLEN
      modifies this`data, buf
      ensures Valid() && Frame() == XmitFrame(old(Frame()), is8021q, p)
    {
      hide XmitFrame, Tag;
      ghost var f := Frame();
      if is8021q {
        OpenGap(DSA_HLEN);
        TaggedAssembles(f, Frame(), p);
        WriteTag(true, p);
      } else {
        OpenGap(SDSA_HLEN);
        UntaggedAssembles(f, Frame(), p);
        WriteTag(false, p);
        WriteVlan();
      }
    }

    /** sdsa_xmit: without room for the tag the frame stays as it is. */
    method Xmit(p: UserPort, allocOk: bool) returns (ok: bool)
      requires Valid() && |Frame()| >= ETH_HLEN
      modifies this`buf, this`data, this`tail, buf
      ensures Valid() && (ok <==> old(data) >= (if is8021q then DSA_HLEN else SDSA_HLEN) || allocOk)
      ensures Frame() == if ok then XmitFrame(old(Frame()), is8021q, p) else old(Frame())
    {
      hide XmitFrame;
      ok := CowHead(if is8021q then DSA_HLEN else SDSA_HLEN, allocOk);
      if ok {
        InsertTag(p);
      }
    }

    /** The addresses next to the data again: the n bytes before them are gone. */
    method CloseGap(n: nat)
      requires Valid() && data >= ETH_HLEN + n
      modifies buf
      ensures MacFrame() ==
        old(buf[..])[data - ETH_HLEN - n..data - ETH_HLEN - n + ADDRS] + old(MacFrame())[ADDRS..]
    {
      hide Moved;
      ghost var s := buf[..];
      GapClosed(s, data - ETH_HLEN, n, tail);
      MemMove(data - ETH_HLEN, data - ETH_HLEN - n, 2 * ETH_ALEN);
    }

    /** dsa_conduit_find_user */
    method FindUserPort(ports: seq<UserPort>, device: bv32, port: bv32) returns (r: Option<nat>)
      ensures r == FindUser(ports, device, port)
    {
      for i := 0 to |ports|
        invariant FindUser(ports, device, port) == FindUser(ports, device, port, i)
      {
        if ports[i].dsIndex == device && ports[i].index == port && ports[i].isUser {
          return Some(i);
        }
      }
      return None;
    }

    /** The 802.1Q EtherType over the bytes that name the port; the VLAN bytes stay. */
    method WriteEtherType(header: nat)
      requires header + 4 <= buf.Length
      modifies buf
      ensures buf[..] == EtherTypeAt(old(buf[..]), header)
    {
      var vlan0, vlan1 := buf[header + 2], buf[header + 3];
      buf[header] := 0x81;
      buf[header + 1] := 0;
      buf[header + 2] := vlan0;
      buf[header + 3] := vlan1;
    }

    method PullTagged()
      requires Valid() && data >= ETH_HLEN && |Frame()| >= SDSA_HLEN
      modifies this`data, buf
      ensures Valid() && data >= ETH_HLEN
      ensures MacFrame() == old(MacFrame())[..ADDRS] + [0x81, 0] + old(MacFrame())[18..]
    {
      var header := data + 2;
      EtherTypeParts(buf[..], data - ETH_HLEN, tail);
      hide EtherTypeAt;
      data := data + DSA_HLEN;
      WriteEtherType(header);
      CloseGap(DSA_HLEN);
    }

    method PullUntagged()
      requires Valid() && data >= ETH_HLEN && |Frame()| >= SDSA_HLEN
      modifies this`data, buf
      ensures Valid() && data >= ETH_HLEN
      ensures MacFrame() == old(MacFrame())[..ADDRS] + old(MacFrame())[20..]
    {
      ghost var mac := data - ETH_HLEN;
      SliceOfSlice(buf[..], mac, tail, 0, ADDRS);
      SliceOfSlice(buf[..], mac, tail, 20, tail - mac);
      data := data + SDSA_HLEN;
      SliceOfSlice(buf[..], mac + SDSA_HLEN, tail, ADDRS, tail - mac - SDSA_HLEN);
      CloseGap(SDSA_HLEN);
    }

    /** sdsa_rcv once the port is known. */
    method RemoveTag()
      requires Valid() && data >= ETH_HLEN && |Frame()| >= SDSA_HLEN
      modifies this`data, this`offloadFwdMark, buf
      ensures Valid() && data >= ETH_HLEN && MacFrame() == Untagged(old(MacFrame())) && offloadFwdMark
    {
      assert buf[data + 2] == MacFrame()[16];
      if buf[data + 2] & 0x20 != 0 {
        PullTagged();
      } else {
        PullUntagged();
      }
      offloadFwdMark := true;
    }

    /** sdsa_rcv: a frame that is refused stays as it is. */
    method Rcv(ports: seq<UserPort>) returns (user: Option<nat>)
      requires Valid() && data >= ETH_HLEN
      modifies this`data, this`offloadFwdMark, buf
      ensures Valid() && data >= ETH_HLEN
      ensures match RcvFrame(old(MacFrame()), ports)
        case None => user == None && unchanged(this) && unchanged(buf)
        case Some(r) => user == Some(r.1) && MacFrame() == r.0 && offloadFwdMark
    {
      hide Untagged, SourcePort, FindUser;
      ghost var t := MacFrame();
      if tail - data < SDSA_HLEN {
        return None;
      }
      var header := data + 2;
      assert buf[header] == t[16] && buf[header + 1] == t[17];
      if buf[header] & 0xc0 != 0 {
        return None;
      }
      user := FindUserPort(ports, 0, SourcePort(buf[header], buf[header + 1]));
      if user != None {
        RemoveTag();
      }
    }
  }
}
