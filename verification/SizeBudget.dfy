/** client.go effectiveMSSFix: the MSS clamp that keeps sealed packets within the link budget. */
module SizeBudget {
  import opened Bytes
  import opened Framing
  import opened Crypto
  import opened Compress
  import opened DataChannel
  import opened MssFix

  datatype Proto = Udp | Tcp

  /** What the profile says about mssfix. */
  datatype Profile = Profile(mssFixSet: bool, mssFix: int)

  const DEFAULT_TUN_MTU := 1500
  const LINK_BUDGET := 1450
  const GCM_OVERHEAD := 24
  const CBC_OVERHEAD := 72

  /** An explicit maximum MSS, or an inner MTU from which the MSS follows per IP version. */
  datatype Clamping = MaxMss(mss: int) | PacketMtu(mtu: int)

  function OuterIpLen(outerV6: bool): nat {
    if outerV6 then 40 else 20
  }

  function EffectiveMssFix(p: Profile, pushedMSS: int, tunMTU: int, proto: Proto, cbc: bool, mode: Mode,
                           outerV6: bool): Clamping
  {
    if pushedMSS > 0 then MaxMss(pushedMSS)
    else if p.mssFixSet then MaxMss(p.mssFix)
    else if tunMTU != DEFAULT_TUN_MTU then PacketMtu(tunMTU)
    else
      var transport := if proto == Tcp then 20 + 2 else 8;
      var data := (if cbc then CBC_OVERHEAD else GCM_OVERHEAD) + if mode == ModeLZ4 then 1 else 0;
      PacketMtu(LINK_BUDGET - OuterIpLen(outerV6) - transport - data)
  }

  /** Bytes on the link for one sealed packet, outer headers and TCP length prefix included. */
  function OnLink(proto: Proto, outerV6: bool, pkt: Packet): nat {
    OuterIpLen(outerV6) + match proto
      case Udp => 8 + |pkt|
      case Tcp => 20 + |Be16(0)| + |pkt|
  }

  lemma SealedSize(c: Cipher, keyId: Byte, peerId: Word24, id: Word32, iv: seq<Byte>, inner: seq<Byte>)
    requires |iv| == BLOCK
    ensures var n := |Sealed(c, keyId, peerId, id, iv, inner)|;
            match c
            case GcmCipher(_) => n == |inner| + GCM_OVERHEAD
            case CbcCipher(_) => |inner| + CBC_OVERHEAD - 15 <= n <= |inner| + CBC_OVERHEAD
  {
  }

  /**
   * With no mssfix from server or profile and the default TUN MTU, an inner packet of the derived
   * MTU or less stays within 1450 bytes on the link, and a longer one does not, up to CBC's padding.
   */
  lemma PacketFitsLink(p: Profile, pushedMSS: int, proto: Proto, mode: Mode, outerV6: bool, c: Cipher,
                       keyId: Byte, peerId: Word24, id: Word32, iv: seq<Byte>, packet: seq<Byte>)
    requires |iv| == BLOCK && !p.mssFixSet && pushedMSS <= 0
    ensures var mtu := EffectiveMssFix(p, pushedMSS, DEFAULT_TUN_MTU, proto, c.CbcCipher?, mode, outerV6).mtu;
            var size := OnLink(proto, outerV6, Sealed(c, keyId, peerId, id, iv, Wrap(mode, packet)));
            && mtu >= 1315
            && (|packet| <= mtu ==> size <= LINK_BUDGET)
            && (size <= LINK_BUDGET ==> |packet| <= mtu + if c.CbcCipher? then 15 else 0)
  {
    SealedSize(c, keyId, peerId, id, iv, Wrap(mode, packet));
  }

  /** The MSS a SYN advertises. */
  function Advertised(p: seq<Byte>, m: nat): Word16
    requires m + 2 <= |p|
  {
    FromBe16(p[m..])
  }

  lemma ClampedAdvertises(p: seq<Byte>, mtu: int, t: nat, m: nat)
    requires TcpOffset(p) == Some(t) && MssOffset(p, t) == Some(m) && mtu > 60
    ensures Advertised(Clamped(p, MssForMTU(p, mtu)), m) <= MssForMTU(p, mtu)
  {
  }

  /**
   * Whatever SYN went through the clamp, an option-free segment of at most the MSS it then
   * advertises fits the link budget once it is compressed, sealed, framed and sent.
   */
  lemma SegmentFitsLink(p: Profile, pushedMSS: int, proto: Proto, mode: Mode, outerV6: bool, c: Cipher,
                        keyId: Byte, peerId: Word24, id: Word32, iv: seq<Byte>,
                        syn: seq<Byte>, t: nat, m: nat, segment: seq<Byte>)
    requires |iv| == BLOCK && !p.mssFixSet && pushedMSS <= 0
    requires TcpOffset(syn) == Some(t) && MssOffset(syn, t) == Some(m)
    requires var mtu := EffectiveMssFix(p, pushedMSS, DEFAULT_TUN_MTU, proto, c.CbcCipher?, mode, outerV6).mtu;
             |segment| <= (if IsV4(syn) then 20 else 40) + 20 + Advertised(Clamped(syn, MssForMTU(syn, mtu)), m)
    ensures OnLink(proto, outerV6, Sealed(c, keyId, peerId, id, iv, Wrap(mode, segment))) <= LINK_BUDGET
  {
    var mtu := EffectiveMssFix(p, pushedMSS, DEFAULT_TUN_MTU, proto, c.CbcCipher?, mode, outerV6).mtu;
    ClampedAdvertises(syn, mtu, t, m);
    PacketFitsLink(p, pushedMSS, proto, mode, outerV6, c, keyId, peerId, id, iv, segment);
  }

  /** With another TUN MTU the same segments fit that MTU. */
  lemma SegmentFitsTun(p: Profile, pushedMSS: int, tunMTU: int, proto: Proto, cbc: bool, mode: Mode, outerV6: bool,
                       syn: seq<Byte>, t: nat, m: nat, segment: seq<Byte>)
    requires !p.mssFixSet && pushedMSS <= 0 && tunMTU != DEFAULT_TUN_MTU && tunMTU > 60
    requires TcpOffset(syn) == Some(t) && MssOffset(syn, t) == Some(m)
    requires var mtu := EffectiveMssFix(p, pushedMSS, tunMTU, proto, cbc, mode, outerV6).mtu;
             |segment| <= (if IsV4(syn) then 20 else 40) + 20 + Advertised(Clamped(syn, MssForMTU(syn, mtu)), m)
    ensures |segment| <= tunMTU
  {
  }
}
