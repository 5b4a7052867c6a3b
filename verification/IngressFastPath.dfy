/** flx_in with its fast path for established TCP and fragments. `bytes` is the
    whole packet; `lin` bytes of it are linear on entry and h.lin after the pull. */
module IngressFastPath {
  import opened Wrappers
  import opened PacketParser

  datatype Counter =
    | DropSnapshot | DropParse | DropNoListener | DropAssign
    | PassFragment | PassEstablished | AssignTcp | AssignUdp

  datatype Action = Pass | Shot

  /** What a run does: its action, the one counter it bumps, and whether it assigned
      a socket. */
  datatype Verdict = Verdict(action: Action, counter: Counter, assigns: bool)

  /** Outcomes of the kernel helpers. */
  datatype Helpers = Helpers(typed: bool, pulled: bool, lin: nat, listener: bool, guard: bool, accepted: bool)

  const PASS_FRAGMENT: Verdict := Verdict(Pass, PassFragment, false)
  const PASS_ESTABLISHED: Verdict := Verdict(Pass, PassEstablished, false)
  const DROP_PARSE: Verdict := Verdict(Shot, DropParse, false)

  predicate Syn(flags: nat) {
    flags / 2 % 2 == 1 && flags / 16 % 2 != 1
  }

  function Fast4(head: seq<Byte>): Option<Verdict> {
    if |head| < 34 || head[14] / 16 != 4 then None
    else if IsFragment4(Be16(head, 20)) then Some(PASS_FRAGMENT)
    else if head[23] != TCP || head[14] % 16 != 5 || |head| < 54 || Syn(head[47]) then None
    else Some(PASS_ESTABLISHED)
  }

  function Fast6(head: seq<Byte>): Option<Verdict> {
    if |head| < 54 || head[14] / 16 != 6 then None
    else if head[20] == FRAGMENT then
      if Be16(head, 18) < 8 || |head| < 62 then None else Some(PASS_FRAGMENT)
    else if head[20] != TCP || |head| < 74 || Syn(head[67]) then None
    else Some(PASS_ESTABLISHED)
  }

  function Fast(head: seq<Byte>): Option<Verdict> {
    if |head| < ETH_HLEN then None
    else if Be16(head, 12) == ETH_P_IP then Fast4(head)
    else if Be16(head, 12) == ETH_P_IPV6 then Fast6(head)
    else None
  }

  function AssignTo(p: Pkt, h: Helpers): Verdict {
    if !h.listener || !h.guard then Verdict(Shot, DropNoListener, false)
    else if !h.accepted then Verdict(Shot, DropAssign, false)
    else Verdict(Pass, if p.l4proto == TCP then AssignTcp else AssignUdp, true)
  }

  function Classify(p: Pkt, h: Helpers): Verdict {
    if p.fragment then PASS_FRAGMENT
    else if !p.haveL4 then DROP_PARSE
    else if p.l4proto == TCP && !(p.syn && !p.ack) then PASS_ESTABLISHED
    else AssignTo(p, h)
  }

  /** The path through pull_headers and parse_pkt. */
  function Slow(protocol: nat, bytes: seq<Byte>, h: Helpers): Verdict
    requires h.lin <= |bytes|
  {
    if !h.pulled then DROP_PARSE
    else
      var p := Parse(protocol, ETH_HLEN, bytes[..h.lin], |bytes|);
      if p.None? then DROP_PARSE else Classify(p.value, h)
  }

  /** flx_in, with or without its fast path. */
  function Ingress(fast: bool, active: bool, protocol: nat, bytes: seq<Byte>, lin: nat, h: Helpers): Verdict
    requires lin <= |bytes| && h.lin <= |bytes|
  {
    if !active then Verdict(Shot, DropSnapshot, false)
    else if !h.typed || lin < ETH_HLEN then DROP_PARSE
    else if Be16(bytes, 12) != ETH_P_IP && Be16(bytes, 12) != ETH_P_IPV6 then DROP_PARSE
    else if fast && Fast(bytes[..lin]).Some? then Fast(bytes[..lin]).value
    else Slow(protocol, bytes, h)
  }

  // -------------------------------------------------------------- the C code

  class Program {
    /** How often each counter has been bumped, and how often a socket was assigned. */
    var counts: map<Counter, nat>
    var assignments: nat

    ghost predicate Valid()
      reads this
    {
      forall c: Counter :: c in counts
    }

    /** The effect of one verdict on the program's state. */
    twostate predicate Did(v: Verdict)
      reads this
    {
      && old(Valid()) && Valid()
      && counts == old(counts)[v.counter := old(counts[v.counter]) + 1]
      && assignments == old(assignments) + (if v.assigns then 1 else 0)
    }

    constructor ()
      ensures Valid() && assignments == 0 && forall c: Counter :: counts[c] == 0
    {
      assignments := 0;
      counts := map[DropSnapshot := 0, DropParse := 0, DropNoListener := 0, DropAssign := 0,
                    PassFragment := 0, PassEstablished := 0, AssignTcp := 0, AssignUdp := 0];
      new;
      forall c: Counter ensures c in counts && counts[c] == 0 {
        assert c.DropSnapshot? || c.DropParse? || c.DropNoListener? || c.DropAssign?
            || c.PassFragment? || c.PassEstablished? || c.AssignTcp? || c.AssignUdp?;
      }
    }

    method Count(c: Counter)
      requires Valid()
      modifies this
      ensures Valid() && counts == old(counts)[c := old(counts[c]) + 1] && assignments == old(assignments)
    {
      counts := counts[c := counts[c] + 1];
    }

    /** ingress_fast_path; None is its -1. */
    method FastPath(head: seq<Byte>) returns (r: Option<Action>)
      requires Valid()
      modifies this
      ensures r.None? <==> Fast(head).None?
      ensures r.None? ==> Valid() && counts == old(counts) && assignments == old(assignments)
      ensures r.Some? ==> r.value == Fast(head).value.action && Did(Fast(head).value)
    {
      if |head| < ETH_HLEN {
        return None;
      }
      var proto := Be16(head, 12);
      if proto == ETH_P_IP {
        if |head| < 34 || head[14] / 16 != 4 {
          return None;
        }
        if IsFragment4(Be16(head, 20)) {
          Count(PassFragment);
          return Some(Pass);
        }
        if head[23] != TCP || head[14] % 16 != 5 || |head| < 54 || Syn(head[47]) {
          return None;
        }
        Count(PassEstablished);
        return Some(Pass);
      }
      if proto == ETH_P_IPV6 {
        if |head| < 54 || head[14] / 16 != 6 {
          return None;
        }
        if head[20] == FRAGMENT {
          if Be16(head, 18) < 8 || |head| < 62 {
            return None;
          }
          Count(PassFragment);
          return Some(Pass);
        }
        if head[20] != TCP || |head| < 74 || Syn(head[67]) {
          return None;
        }
        Count(PassEstablished);
        return Some(Pass);
      }
      return None;
    }

    /** The tail of flx_in from listener_lookup on. */
    method AssignSocket(p: Pkt, h: Helpers) returns (action: Action)
      requires Valid()
      modifies this
      ensures action == AssignTo(p, h).action && Did(AssignTo(p, h))
    {
      if !h.listener {
        Count(DropNoListener);
        return Shot;
      }
      if !h.guard {
        Count(DropNoListener);
        return Shot;
      }
      if !h.accepted {
        Count(DropAssign);
        return Shot;
      }
      assignments := assignments + 1;
      Count(if p.l4proto == TCP then AssignTcp else AssignUdp);
      return Pass;
    }

    /** flx_in. */
    method FlxIn(active: bool, protocol: nat, bytes: seq<Byte>, lin: nat, h: Helpers) returns (action: Action)
      requires Valid() && lin <= |bytes| && h.lin <= |bytes|
      modifies this
      ensures action == Ingress(true, active, protocol, bytes, lin, h).action
      ensures Did(Ingress(true, active, protocol, bytes, lin, h))
    {
      hide Fast, Parse;
      if !active {
        Count(DropSnapshot);
        return Shot;
      }
      if !h.typed || lin < ETH_HLEN {
        Count(DropParse);
        return Shot;
      }
      var proto := Be16(bytes, 12);
      if proto != ETH_P_IP && proto != ETH_P_IPV6 {
        Count(DropParse);
        return Shot;
      }
      var quick := FastPath(bytes[..lin]);
      if quick.Some? {
        return quick.value;
      }
      if !h.pulled {
        Count(DropParse);
        return Shot;
      }
      var p := ParsePkt(protocol, ETH_HLEN, bytes[..h.lin], |bytes|);
      if p.None? {
        Count(DropParse);
        return Shot;
      }
      if p.value.fragment {
        Count(PassFragment);
        return Pass;
      }
      if !p.value.haveL4 {
        Count(DropParse);
        return Shot;
      }
      if p.value.l4proto == TCP && !(p.value.syn && !p.value.ack) {
        Count(PassEstablished);
        return Pass;
      }
      action := AssignSocket(p.value, h);
    }
  }

  // ------------------------------------------------------------- the refinement

  /** The pull succeeded and the packet metadata agrees with the Ethernet header. */
  predicate Prepared(protocol: nat, bytes: seq<Byte>, lin: nat, h: Helpers) {
    && ETH_HLEN <= lin <= |bytes| && protocol == Be16(bytes, 12)
    && h.pulled && Pulled(h.lin, |bytes|)
  }

  /** The length fields the fast path does not look at. */
  predicate LengthsHold(bytes: seq<Byte>)
    requires |bytes| >= 34
  {
    if Be16(bytes, 12) == ETH_P_IP then
      var total := Be16(bytes, 16);
      && bytes[14] % 16 >= 5 && total >= bytes[14] % 16 * 4 && ETH_HLEN + total <= |bytes|
      && (IsFragment4(Be16(bytes, 20)) || total >= 40)
    else
      var payload := Be16(bytes, 18);
      && ETH_HLEN + 40 + payload <= |bytes|
      && payload >= (if bytes[20] == FRAGMENT then 8 else 20)
  }

  lemma FastReadsWholePacket(bytes: seq<Byte>, lin: nat)
    requires lin <= |bytes| && Fast(bytes[..lin]).Some?
    ensures Fast(bytes) == Fast(bytes[..lin]) && |bytes| >= 34
  {
    hide IsFragment4;
  }

  /** Where the fast path answers on a whole packet, the decoder accepts exactly
      when the length fields hold, and then the classification is the same. */
  lemma FastAgrees(bytes: seq<Byte>, h: Helpers)
    requires Fast(bytes).Some? && |bytes| >= 34
    ensures var p := Parse(Be16(bytes, 12), ETH_HLEN, bytes, |bytes|);
            && (p.Some? <==> LengthsHold(bytes))
            && (p.Some? ==> Classify(p.value, h) == Fast(bytes).value)
  {
    hide IsFragment4;
    if Be16(bytes, 12) == ETH_P_IPV6 {
      WalkRound(bytes, ETH_HLEN + 40 + Be16(bytes, 18), 0, bytes[20], 54, 0);
      hide Walk;
    }
  }

  lemma SlowSeesWholePacket(protocol: nat, bytes: seq<Byte>, lin: nat, h: Helpers)
    requires Prepared(protocol, bytes, lin, h)
    ensures Slow(protocol, bytes, h) ==
              (var p := Parse(protocol, ETH_HLEN, bytes, |bytes|); if p.None? then DROP_PARSE else Classify(p.value, h))
  {
    hide Parse, Classify;
    PullBoundSuffices(protocol, ETH_HLEN, bytes, h.lin);
  }

  /** For every packet parse_pkt accepts, a fast answer is the slow path's answer:
      same action, same counter, and no socket assigned. */
  lemma FastRefinesSlow(protocol: nat, bytes: seq<Byte>, lin: nat, h: Helpers)
    requires Prepared(protocol, bytes, lin, h)
    requires Parse(protocol, ETH_HLEN, bytes, |bytes|).Some? && Fast(bytes[..lin]).Some?
    ensures Fast(bytes[..lin]).value == Slow(protocol, bytes, h) && !Slow(protocol, bytes, h).assigns
  {
    hide Parse, Slow, Classify;
    FastReadsWholePacket(bytes, lin);
    FastAgrees(bytes, h);
    SlowSeesWholePacket(protocol, bytes, lin, h);
    assert !Fast(bytes).value.assigns;
  }

  /** At `off` stands a UDP header, or a TCP header with SYN and without ACK. */
  predicate Admission(bytes: seq<Byte>, proto: nat, off: nat) {
    proto == UDP || (proto == TCP && off + 14 <= |bytes| && Syn(bytes[off + 13]))
  }

  /** A chain of extension headers, of any number and size, leads to such a header. */
  ghost predicate AdmissionBehind(bytes: seq<Byte>, lens: seq<nat>, proto: nat, off: nat)
    requires |bytes| >= 34
  {
    Chain(bytes, bytes[20], ETH_HLEN + 40, lens, proto, off) && Admission(bytes, proto, off)
  }

  /** The packet is not a fragment and its headers, whatever its length fields say, lead
      to such a header. */
  ghost predicate AsksForAdmission(bytes: seq<Byte>) {
    && |bytes| >= 34
    && if Be16(bytes, 12) == ETH_P_IP
       then !IsFragment4(Be16(bytes, 20)) && Admission(bytes, bytes[23], ETH_HLEN + bytes[14] % 16 * 4)
       else exists lens, proto, off :: AdmissionBehind(bytes, lens, proto, off)
  }

  /** The fast path never answers for a bare SYN or a UDP datagram, even one that the
      decoder rejects, and however much of it is linear. */
  lemma NeverAnswersForAdmission(bytes: seq<Byte>, lin: nat)
    requires lin <= |bytes| && AsksForAdmission(bytes)
    ensures Fast(bytes[..lin]).None?
  {
    hide IsFragment4;
    if Fast(bytes[..lin]).Some? {
      FastReadsWholePacket(bytes, lin);
      assert false;
    }
  }

  /** In particular not for a packet that the slow path would assign. */
  lemma AssignedIsNeverFast(bytes: seq<Byte>, lin: nat)
    requires lin <= |bytes| && |bytes| >= ETH_HLEN
    requires var p := Parse(Be16(bytes, 12), ETH_HLEN, bytes, |bytes|);
             p.Some? && p.value.haveL4 && (p.value.l4proto == UDP || (p.value.syn && !p.value.ack))
    ensures Fast(bytes[..lin]).None?
  {
    hide Parse;
    if Fast(bytes[..lin]).Some? {
      FastReadsWholePacket(bytes, lin);
      ResultsAreExclusive(Be16(bytes, 12), ETH_HLEN, bytes, |bytes|);
      FastAgrees(bytes, Helpers(true, true, 0, true, true, true));
    }
  }

  /** The fast path changes what flx_in does in exactly one case: it passes a packet
      whose length fields parse_pkt would have rejected. */
  lemma FastPathChangesExactly(active: bool, protocol: nat, bytes: seq<Byte>, lin: nat, h: Helpers)
    requires Prepared(protocol, bytes, lin, h)
    ensures Ingress(true, active, protocol, bytes, lin, h) != Ingress(false, active, protocol, bytes, lin, h)
       <==> active && h.typed && |bytes| >= 34 && Fast(bytes[..lin]).Some? && !LengthsHold(bytes)
  {
    hide Parse, Slow, Classify, LengthsHold, Fast4, Fast6;
    if Fast(bytes[..lin]).Some? {
      FastReadsWholePacket(bytes, lin);
      FastAgrees(bytes, h);
      SlowSeesWholePacket(protocol, bytes, lin, h);
      FastAlwaysPasses(bytes);
    }
  }

  lemma FastAlwaysPasses(head: seq<Byte>)
    ensures Fast(head).Some? ==> Fast(head).value.action == Pass && !Fast(head).value.assigns
  {
  }

  /** Such a packet: an IPv4 TCP segment whose total length is zero. With the fast path
      flx_in passes it, without it flx_in drops it. */
  lemma FastPassesWhatParseRejects(h: Helpers)
    requires h.typed && h.pulled && h.lin == 54
    ensures exists bytes: seq<Byte> ::
              && |bytes| == 54 && Prepared(ETH_P_IP, bytes, 54, h)
              && Ingress(true, true, ETH_P_IP, bytes, 54, h) == PASS_ESTABLISHED
              && Ingress(false, true, ETH_P_IP, bytes, 54, h) == DROP_PARSE
              && Parse(ETH_P_IP, ETH_HLEN, bytes, |bytes|).None?
  {
    var bytes: seq<Byte> := seq(54, i => if i == 12 then 8 else if i == 14 then 0x45 else if i == 23 then TCP else 0);
    assert bytes[12] == 8 && bytes[13] == 0 && bytes[14] == 0x45 && bytes[16] == 0 && bytes[17] == 0;
    assert bytes[20] == 0 && bytes[21] == 0 && bytes[23] == TCP && bytes[47] == 0;
    assert Be16(bytes, 12) == ETH_P_IP && bytes[..54] == bytes;
  }
}
