/** What flx_in lets through: the verdict of every packet against the headers that stand
    in its bytes, whatever the helpers answer. */
module IngressOutcomes {
  import opened Wrappers
  import opened PacketParser
  import opened IngressFastPath

  /** IPv6 extension headers of these sizes lead to the header proto at off. */
  ghost predicate Behind(bytes: seq<Byte>, lens: seq<nat>, proto: nat, off: nat)
    requires |bytes| >= 34
  {
    Chain(bytes, bytes[20], ETH_HLEN + 40, lens, proto, off)
  }

  /** The first header of the packet that is no IPv6 extension, and its place. */
  ghost predicate TransportAt(bytes: seq<Byte>, proto: nat, off: nat) {
    && |bytes| >= 34
    && if Be16(bytes, 12) == ETH_P_IP
       then !IsFragment4(Be16(bytes, 20)) && proto == bytes[23] && off == ETH_HLEN + bytes[14] % 16 * 4
       else exists lens :: Behind(bytes, lens, proto, off)
  }

  ghost predicate FragmentPacket(bytes: seq<Byte>) {
    && |bytes| >= 34
    && if Be16(bytes, 12) == ETH_P_IP then IsFragment4(Be16(bytes, 20))
       else exists lens, off :: Behind(bytes, lens, FRAGMENT, off)
  }

  /** A TCP header stands at off, and whether it is a bare SYN. */
  ghost predicate TcpAt(bytes: seq<Byte>, off: nat, bareSyn: bool) {
    TransportAt(bytes, TCP, off) && off + 14 <= |bytes| && Syn(bytes[off + 13]) == bareSyn
  }

  lemma TransportUnique(bytes: seq<Byte>, proto: nat, off: nat, proto': nat, off': nat)
    requires TransportAt(bytes, proto, off) && IsL4(proto)
    ensures TransportAt(bytes, proto', off') && IsL4(proto') ==> proto == proto' && off == off'
    ensures !FragmentPacket(bytes)
  {
    if Be16(bytes, 12) != ETH_P_IP {
      var lens :| Behind(bytes, lens, proto, off);
      hide Chain, IsFragment4;
      if ls :| Behind(bytes, ls, proto', off') && IsL4(proto') {
        ChainUnique(bytes, bytes[20], ETH_HLEN + 40, lens, proto, off, ls, proto', off');
      }
      if ls, end :| Behind(bytes, ls, FRAGMENT, end) {
        ChainUnique(bytes, bytes[20], ETH_HLEN + 40, lens, proto, off, ls, FRAGMENT, end);
      }
    }
  }

  /** The decoder reads the header that stands there. */
  lemma ParsedTransport(bytes: seq<Byte>, p: Pkt)
    requires |bytes| >= ETH_HLEN && Parse(Be16(bytes, 12), ETH_HLEN, bytes, |bytes|) == Some(p)
    ensures if p.fragment then FragmentPacket(bytes)
            else
              && p.haveL4 && IsL4(p.l4proto) && TransportAt(bytes, p.l4proto, p.l4off)
              && (p.l4proto == TCP ==> TcpAt(bytes, p.l4off, p.syn && !p.ack))
  {
    hide IsFragment4;
    if Be16(bytes, 12) == ETH_P_IPV6 {
      var l3End := ETH_HLEN + 40 + Be16(bytes, 18);
      var end, lens := WalkFindsChain(bytes, l3End, 0, bytes[20], ETH_HLEN + 40, 0);
      hide Walk, Chain;
      var w := Walk(bytes, l3End, 0, bytes[20], ETH_HLEN + 40, 0);
      assert w.AtL4? ==> Behind(bytes, lens, w.proto, w.off);
      assert w.AtFragment? ==> Behind(bytes, lens, FRAGMENT, end);
    }
  }

  /** The Ethernet type and skb->protocol agree, and a pull that succeeds pulls enough. */
  predicate Consistent(protocol: nat, bytes: seq<Byte>, lin: nat, h: Helpers) {
    && lin <= |bytes| && h.lin <= |bytes| && (|bytes| >= ETH_HLEN ==> protocol == Be16(bytes, 12))
    && (h.pulled ==> Pulled(h.lin, |bytes|))
  }

  lemma FastIsSound(bytes: seq<Byte>, lin: nat)
    requires lin <= |bytes| && Fast(bytes[..lin]).Some?
    ensures if Fast(bytes[..lin]).value == PASS_FRAGMENT then FragmentPacket(bytes)
            else Fast(bytes[..lin]).value == PASS_ESTABLISHED && exists off :: TcpAt(bytes, off, false)
  {
    FastReadsWholePacket(bytes, lin);
    hide IsFragment4;
    if Fast(bytes).value == PASS_ESTABLISHED {
      if Be16(bytes, 12) == ETH_P_IP {
        assert TcpAt(bytes, 34, false);
      } else {
        assert Behind(bytes, [], TCP, 54);
        assert TcpAt(bytes, 54, false);
      }
    } else if Be16(bytes, 12) != ETH_P_IP {
      assert Behind(bytes, [], FRAGMENT, 54);
    }
  }

  predicate Drops(c: Counter) {
    c.DropSnapshot? || c.DropParse? || c.DropNoListener? || c.DropAssign?
  }

  /** What each counter stands for. */
  ghost predicate CountedRightly(c: Counter, active: bool, bytes: seq<Byte>, h: Helpers) {
    match c
    case DropSnapshot => !active
    case DropParse => active
    case DropNoListener => active && AsksForAdmission(bytes) && !(h.listener && h.guard)
    case DropAssign => active && AsksForAdmission(bytes) && h.listener && h.guard && !h.accepted
    case PassFragment => active && FragmentPacket(bytes)
    case PassEstablished => active && exists off :: TcpAt(bytes, off, false)
    case AssignTcp => active && h.listener && h.guard && h.accepted && exists off :: TcpAt(bytes, off, true)
    case AssignUdp => active && h.listener && h.guard && h.accepted && exists off :: TransportAt(bytes, UDP, off)
  }

  lemma AsksAt(bytes: seq<Byte>, proto: nat, off: nat)
    requires TransportAt(bytes, proto, off) && Admission(bytes, proto, off)
    ensures AsksForAdmission(bytes)
  {
    if Be16(bytes, 12) != ETH_P_IP {
      var lens :| Behind(bytes, lens, proto, off);
      assert AdmissionBehind(bytes, lens, proto, off);
    }
  }

  /** The slow path, from what the decoder found. */
  lemma SlowIsSound(bytes: seq<Byte>, p: Pkt, h: Helpers)
    requires |bytes| >= ETH_HLEN && Parse(Be16(bytes, 12), ETH_HLEN, bytes, |bytes|) == Some(p)
    ensures CountedRightly(Classify(p, h).counter, true, bytes, h) && !Classify(p, h).counter.DropParse?
    ensures Classify(p, h).action == Pass <==> !Drops(Classify(p, h).counter)
    ensures Classify(p, h).assigns <==> Classify(p, h).counter.AssignTcp? || Classify(p, h).counter.AssignUdp?
  {
    ParsedTransport(bytes, p);
    hide Parse, TransportAt, FragmentPacket, AsksForAdmission;
    if !p.fragment && (p.l4proto == UDP || (p.syn && !p.ack)) {
      AsksAt(bytes, p.l4proto, p.l4off);
    }
  }

  /** Nothing passes but a fragment, a TCP segment that is no bare SYN, and a bare SYN or a
      datagram that was assigned; every counter says what it stands for; a packet passes
      exactly when its counter is not a drop, and is assigned exactly when it is so counted. */
  lemma PassedRightly(fast: bool, active: bool, protocol: nat, bytes: seq<Byte>, lin: nat, h: Helpers)
    requires Consistent(protocol, bytes, lin, h)
    ensures var v := Ingress(fast, active, protocol, bytes, lin, h);
            && CountedRightly(v.counter, active, bytes, h)
            && (v.action == Pass <==> !Drops(v.counter))
            && (v.assigns <==> v.counter.AssignTcp? || v.counter.AssignUdp?)
            && (v.action == Pass ==> h.typed && lin >= ETH_HLEN)
            && (v.counter.DropParse? ==>
                  !h.typed || lin < ETH_HLEN || !h.pulled || Parse(protocol, ETH_HLEN, bytes, |bytes|).None?)
  {
    OtherTypesAreRefused(protocol, bytes);
    hide Parse, Classify, Fast, FragmentPacket, TransportAt, AsksForAdmission;
    if lin >= ETH_HLEN && active && h.typed {
      if Fast(bytes[..lin]).Some? {
        FastIsSound(bytes, lin);
      }
      if h.pulled {
        SlowSeesWholePacket(protocol, bytes, lin, h);
        if Parse(protocol, ETH_HLEN, bytes, |bytes|).Some? {
          SlowIsSound(bytes, Parse(protocol, ETH_HLEN, bytes, |bytes|).value, h);
        }
      }
    }
  }

  lemma AskedIsParsed(bytes: seq<Byte>, p: Pkt)
    requires |bytes| >= ETH_HLEN && AsksForAdmission(bytes) && Parse(Be16(bytes, 12), ETH_HLEN, bytes, |bytes|) == Some(p)
    ensures !p.fragment && p.haveL4 && (p.l4proto == UDP || (p.l4proto == TCP && p.syn && !p.ack))
  {
    ParsedTransport(bytes, p);
    var proto, off := AskedAt(bytes);
    hide Parse, AsksForAdmission;
    TransportUnique(bytes, proto, off, p.l4proto, p.l4off);
    hide TransportAt, FragmentPacket;
  }

  lemma AskedAt(bytes: seq<Byte>) returns (proto: nat, off: nat)
    requires AsksForAdmission(bytes)
    ensures TransportAt(bytes, proto, off) && Admission(bytes, proto, off)
  {
    if Be16(bytes, 12) == ETH_P_IP {
      proto, off := bytes[23], ETH_HLEN + bytes[14] % 16 * 4;
    } else {
      var lens, p, o :| AdmissionBehind(bytes, lens, p, o);
      proto, off := p, o;
      assert Behind(bytes, lens, p, o);
    }
  }

  /** A packet that asks for admission, once it is typed and pulled, is assigned exactly if
      the decoder accepts it, a listener is found, the guard holds and the socket is
      taken; it passes in no other case. */
  lemma AdmittedExactly(fast: bool, protocol: nat, bytes: seq<Byte>, lin: nat, h: Helpers)
    requires Prepared(protocol, bytes, lin, h) && h.typed && AsksForAdmission(bytes)
    ensures var v := Ingress(fast, true, protocol, bytes, lin, h);
            var decoded := Parse(protocol, ETH_HLEN, bytes, |bytes|).Some?;
            && (v.assigns <==> decoded && h.listener && h.guard && h.accepted)
            && (v.action == Pass <==> v.assigns)
            && (v.counter == DropParse <==> !decoded)
  {
    NeverAnswersForAdmission(bytes, lin);
    SlowSeesWholePacket(protocol, bytes, lin, h);
    var p := Parse(protocol, ETH_HLEN, bytes, |bytes|);
    if p.Some? {
      AskedIsParsed(bytes, p.value);
    }
    OtherTypesAreRefused(protocol, bytes);
    hide Parse, Fast, AsksForAdmission;
  }

  lemma OtherTypesAreRefused(protocol: nat, bytes: seq<Byte>)
    ensures protocol != ETH_P_IP && protocol != ETH_P_IPV6 ==> Parse(protocol, ETH_HLEN, bytes, |bytes|).None?
  {
  }
}
