/** One observable policy as an epoch, the verdict it gives a new flow, and the
    windows that two update protocols expose on the way from one epoch to the
    next. */
module PolicyEpochs {
  import opened Words
  import opened Wrappers

  datatype BypassTag = Reserved | Policy
  datatype CidrMode = Blacklist | Whitelist
  datatype DecisionMode = Direct | Captured

  /** An address space: its width in bits and the mask to a prefix length. */
  datatype Space<!A> = Space(width: nat, mask: (A, nat) -> A)

  datatype Cidr<A> = Cidr(addr: A, len: nat)

  /** mask32 and mask128 of the prefix length as a byte. */
  function Mask32(len: bv8): bv32 {
    if len == 0 then 0 else if len >= 32 then 0xffff_ffff else (0xffff_ffff as bv32) << (32 - len)
  }

  function Mask128(len: bv8): bv128 {
    if len == 0 then 0
    else if len >= 128 then 0xffff_ffff_ffff_ffff_ffff_ffff_ffff_ffff
    else (0xffff_ffff_ffff_ffff_ffff_ffff_ffff_ffff as bv128) << (128 - len)
  }

  const V4_SPACE: Space<bv32> := Space(32, (a, len) => if len <= 32 then a & Mask32(ByteOf(len)) else a)
  const V6_SPACE: Space<bv128> := Space(128, (a, len) => if len <= 128 then a & Mask128(ByteOf(len)) else a)

  /** v4_in / v6_in. */
  predicate In<A(==)>(sp: Space<A>, c: Cidr<A>, addr: A) {
    sp.mask(addr, c.len) == c.addr
  }

  /** What Ipv4Cidr and Ipv6Cidr values are: no longer than the family, no host bits set. */
  predicate Canonical<A(==)>(sp: Space<A>, c: Cidr<A>) {
    c.len <= sp.width && sp.mask(c.addr, c.len) == c.addr
  }

  // ------------------------------------------------------ longest-prefix match

  /** The longest prefix of length at most p in m that covers addr, looked up
      length by length. */
  function LongestFrom<A(==)>(sp: Space<A>, m: map<Cidr<A>, BypassTag>, addr: A, p: nat): (c: Option<Cidr<A>>)
    ensures c.Some? ==> c.value in m && c.value.len <= p && In(sp, c.value, addr)
  {
    var key := Cidr(sp.mask(addr, p), p);
    if key in m then Some(key) else if p == 0 then None else LongestFrom(sp, m, addr, p - 1)
  }

  function Lpm<A(==)>(sp: Space<A>, m: map<Cidr<A>, BypassTag>, addr: A): Option<BypassTag> {
    var c := LongestFrom(sp, m, addr, sp.width);
    if c.Some? then Some(m[c.value]) else None
  }

  /** No covering prefix is longer than the one found, and none is missed. */
  lemma {:induction false} LongestFromIsLongest<A>(sp: Space<A>, m: map<Cidr<A>, BypassTag>, addr: A, p: nat, d: Cidr<A>)
    requires d in m && In(sp, d, addr) && d.len <= p
    ensures var c := LongestFrom(sp, m, addr, p);
            c.Some? && d.len <= c.value.len && (d.len == c.value.len ==> d == c.value)
  {
    var key := Cidr(sp.mask(addr, p), p);
    assert d.len == p ==> d == key;
    if key !in m {
      LongestFromIsLongest(sp, m, addr, p - 1, d);
    }
  }

  /** entries lists the map in some order, as a BTreeMap iterator does. */
  ghost predicate Lists<A>(entries: seq<(Cidr<A>, BypassTag)>, m: map<Cidr<A>, BypassTag>) {
    && (forall i :: 0 <= i < |entries| ==> entries[i].0 in m && m[entries[i].0] == entries[i].1)
    && (forall c :: c in m ==> exists i :: 0 <= i < |entries| && entries[i].0 == c)
  }

  /** lpm_v4 / lpm_v6: one pass that keeps the best so far. */
  method LpmScan<A(==)>(sp: Space<A>, entries: seq<(Cidr<A>, BypassTag)>, addr: A, ghost m: map<Cidr<A>, BypassTag>)
    returns (tag: Option<BypassTag>)
    requires Lists(entries, m) && forall c :: c in m ==> c.len <= sp.width
    ensures tag == Lpm(sp, m, addr)
  {
    var best: Option<(nat, BypassTag)> := None;
    ghost var at := -1;
    for i := 0 to |entries|
      invariant best.None? ==> forall k :: 0 <= k < i ==> !In(sp, entries[k].0, addr)
      invariant best.Some? ==> 0 <= at < i && In(sp, entries[at].0, addr) && best.value == (entries[at].0.len, entries[at].1)
      invariant best.Some? ==> forall k :: 0 <= k < i && In(sp, entries[k].0, addr) ==> entries[k].0.len <= best.value.0
    {
      var (cidr, t) := entries[i];
      if In(sp, cidr, addr) && (if best.Some? then cidr.len > best.value.0 else true) {
        best := Some((cidr.len, t));
        at := i;
      }
    }
    ghost var found := LongestFrom(sp, m, addr, sp.width);
    assert found.Some? ==> exists k :: 0 <= k < |entries| && entries[k].0 == found.value;
    if best.Some? {
      LongestFromIsLongest(sp, m, addr, sp.width, entries[at].0);
      return Some(best.value.1);
    }
    return None;
  }

  // ------------------------------------------------------------------- epochs

  datatype Dest = V4(a4: bv32) | V6(a6: bv128)

  datatype PolicyEpoch = PolicyEpoch(
    cidrMode: CidrMode,
    selected: set<nat>,
    draining: set<nat>,
    bypassV4: map<Cidr<bv32>, BypassTag>,
    bypassV6: map<Cidr<bv128>, BypassTag>,
    selfV4: set<bv32>,
    selfV6: set<bv128>)

  /** The invariant of the cidr types, for every key of an epoch. */
  ghost predicate WellFormed(e: PolicyEpoch) {
    && (forall c :: c in e.bypassV4 ==> Canonical(V4_SPACE, c))
    && (forall c :: c in e.bypassV6 ==> Canonical(V6_SPACE, c))
  }

  predicate TagDirect(mode: CidrMode, tag: Option<BypassTag>) {
    match tag
    case Some(Reserved) => true
    case Some(Policy) => mode == Blacklist
    case None => mode == Whitelist
  }

  predicate SelfHit(e: PolicyEpoch, d: Dest) {
    match d
    case V4(a) => a in e.selfV4
    case V6(a) => a in e.selfV6
  }

  function TagOf(e: PolicyEpoch, d: Dest): Option<BypassTag> {
    match d
    case V4(a) => Lpm(V4_SPACE, e.bypassV4, a)
    case V6(a) => Lpm(V6_SPACE, e.bypassV6, a)
  }

  predicate BypassDirect(e: PolicyEpoch, d: Dest) {
    SelfHit(e, d) || TagDirect(e.cidrMode, TagOf(e, d))
  }

  function ObserveNewFlow(e: PolicyEpoch, uid: nat, d: Dest): DecisionMode {
    if uid !in e.selected then Direct
    else if BypassDirect(e, d) then Direct
    else Captured
  }

  function Committed(from: PolicyEpoch, desired: PolicyEpoch): PolicyEpoch {
    desired.(draining := from.draining + (from.selected - desired.selected) - desired.selected)
  }

  /** committed: the draining set is extended, then thinned uid by uid. */
  method Commit(from: PolicyEpoch, desired: PolicyEpoch) returns (next: PolicyEpoch)
    ensures next == Committed(from, desired)
  {
    var draining := from.draining + (from.selected - desired.selected);
    var todo := desired.selected;
    while todo != {}
      invariant todo <= desired.selected
      invariant draining == from.draining + (from.selected - desired.selected) - (desired.selected - todo)
    {
      var uid :| uid in todo;
      draining := draining - {uid};
      todo := todo - {uid};
    }
    next := PolicyEpoch(desired.cidrMode, desired.selected, draining, desired.bypassV4, desired.bypassV6,
      desired.selfV4, desired.selfV6);
  }

  /** Every UID a boot has ever selected stays known: a commit never forgets one,
      and never leaves one both selected and draining. */
  lemma CommitKeepsKnownUids(from: PolicyEpoch, desired: PolicyEpoch)
    ensures from.selected + from.draining <= Committed(from, desired).selected + Committed(from, desired).draining
    ensures Committed(from, desired).selected !! Committed(from, desired).draining
  {
  }

  // --------------------------------------------------------- add then subtract

  function UidsAdded(from: PolicyEpoch, desired: PolicyEpoch): PolicyEpoch {
    from.(draining := from.draining - desired.selected, selected := from.selected + desired.selected)
  }

  function PrefixesAdded(live: PolicyEpoch, desired: PolicyEpoch): PolicyEpoch {
    live.(bypassV4 := live.bypassV4 + desired.bypassV4, bypassV6 := live.bypassV6 + desired.bypassV6)
  }

  function SelfAdded(live: PolicyEpoch, desired: PolicyEpoch): PolicyEpoch {
    live.(selfV4 := live.selfV4 + desired.selfV4, selfV6 := live.selfV6 + desired.selfV6)
  }

  function ModeSet(live: PolicyEpoch, desired: PolicyEpoch): PolicyEpoch {
    live.(cidrMode := desired.cidrMode)
  }

  function UidsDrained(live: PolicyEpoch, desired: PolicyEpoch): PolicyEpoch {
    live.(selected := live.selected * desired.selected, draining := live.draining + (live.selected - desired.selected))
  }

  /** The seven epochs that the add-then-subtract order makes visible. */
  function Windows(from: PolicyEpoch, desired: PolicyEpoch): (w: seq<PolicyEpoch>)
    ensures |w| == 7
  {
    var w1 := UidsAdded(from, desired);
    var w2 := PrefixesAdded(w1, desired);
    var w3 := SelfAdded(w2, desired);
    var w4 := ModeSet(w3, desired);
    [from, w1, w2, w3, w4, UidsDrained(w4, desired), Committed(from, desired)]
  }

  function Retain<K, V>(m: map<K, V>, keep: set<K>): map<K, V> {
    map k | k in m && k in keep :: m[k]
  }

  method InsertAll<K(==), V>(into: map<K, V>, added: map<K, V>) returns (m: map<K, V>)
    ensures m == into + added
  {
    m := into;
    var todo := added.Keys;
    while todo != {}
      invariant todo <= added.Keys
      invariant m == into + Retain(added, added.Keys - todo)
    {
      var k :| k in todo;
      m := m[k := added[k]];
      todo := todo - {k};
    }
    assert Retain(added, added.Keys) == added;
  }

  method SelectUids(from: PolicyEpoch, desired: PolicyEpoch) returns (live: PolicyEpoch)
    ensures live == UidsAdded(from, desired)
  {
    live := from;
    var todo := desired.selected;
    while todo != {}
      invariant todo <= desired.selected
      invariant live == from.(draining := from.draining - (desired.selected - todo),
                              selected := from.selected + (desired.selected - todo))
    {
      var uid :| uid in todo;
      live := live.(draining := live.draining - {uid});
      live := live.(selected := live.selected + {uid});
      todo := todo - {uid};
    }
  }

  method DrainUids(before: PolicyEpoch, desired: PolicyEpoch) returns (live: PolicyEpoch)
    ensures live == UidsDrained(before, desired)
  {
    live := before;
    var removed := set uid | uid in live.selected && uid !in desired.selected;
    var todo := removed;
    while todo != {}
      invariant todo <= removed
      invariant live == before.(selected := before.selected - (removed - todo),
                                draining := before.draining + (removed - todo))
    {
      var uid :| uid in todo;
      live := live.(selected := live.selected - {uid});
      live := live.(draining := live.draining + {uid});
      todo := todo - {uid};
    }
    assert removed == before.selected - desired.selected;
    assert live.selected == before.selected * desired.selected;
  }

  /** add_then_subtract_windows: six phases on one live epoch. Its last window is
      exactly the committed epoch. */
  method AddThenSubtract(from: PolicyEpoch, desired: PolicyEpoch) returns (windows: seq<PolicyEpoch>)
    ensures windows == Windows(from, desired)
    ensures windows[6] == Committed(from, desired)
  {
    windows := [from];
    var live := SelectUids(from, desired);
    windows := windows + [live];

    var merged4 := InsertAll(live.bypassV4, desired.bypassV4);
    var merged6 := InsertAll(live.bypassV6, desired.bypassV6);
    live := live.(bypassV4 := merged4, bypassV6 := merged6);
    windows := windows + [live];

    live := live.(selfV4 := live.selfV4 + desired.selfV4, selfV6 := live.selfV6 + desired.selfV6);
    windows := windows + [live];

    live := live.(cidrMode := desired.cidrMode);
    windows := windows + [live];

    live := DrainUids(live, desired);
    windows := windows + [live];

    live := live.(
      bypassV4 := Retain(live.bypassV4, desired.bypassV4.Keys),
      bypassV6 := Retain(live.bypassV6, desired.bypassV6.Keys),
      selfV4 := (set a | a in live.selfV4 && a in desired.selfV4),
      selfV6 := (set a | a in live.selfV6 && a in desired.selfV6));
    SubtractionEndsCommitted(from, desired, live);
    windows := windows + [live];
  }

  lemma SubtractionEndsCommitted(from: PolicyEpoch, desired: PolicyEpoch, last: PolicyEpoch)
    requires var w5 := Windows(from, desired)[5];
             last == w5.(
               bypassV4 := Retain(w5.bypassV4, desired.bypassV4.Keys),
               bypassV6 := Retain(w5.bypassV6, desired.bypassV6.Keys),
               selfV4 := (set a | a in w5.selfV4 && a in desired.selfV4),
               selfV6 := (set a | a in w5.selfV6 && a in desired.selfV6))
    ensures last == Committed(from, desired)
  {
    assert last.bypassV4 == desired.bypassV4 && last.bypassV6 == desired.bypassV6;
    assert last.selfV4 == desired.selfV4 && last.selfV6 == desired.selfV6;
    assert last.selected == desired.selected && last.draining == Committed(from, desired).draining;
  }

  /** Length of the longest covering prefix, -1 when there is none. */
  function MatchLen<A(==)>(sp: Space<A>, m: map<Cidr<A>, BypassTag>, addr: A): int {
    var c := LongestFrom(sp, m, addr, sp.width);
    if c.Some? then c.value.len else -1
  }

  /** The union of two prefix maps answers as the one with the longer match, the
      added map winning ties. */
  lemma MergedLpm<A>(sp: Space<A>, old_: map<Cidr<A>, BypassTag>, added: map<Cidr<A>, BypassTag>, addr: A)
    requires forall c :: c in old_ || c in added ==> c.len <= sp.width
    ensures Lpm(sp, old_ + added, addr) ==
            if MatchLen(sp, added, addr) >= MatchLen(sp, old_, addr) then Lpm(sp, added, addr) else Lpm(sp, old_, addr)
  {
    var m := LongestFrom(sp, old_ + added, addr, sp.width);
    var o := LongestFrom(sp, old_, addr, sp.width);
    var a := LongestFrom(sp, added, addr, sp.width);
    if o.Some? {
      LongestFromIsLongest(sp, old_ + added, addr, sp.width, o.value);
    }
    if a.Some? {
      LongestFromIsLongest(sp, old_ + added, addr, sp.width, a.value);
    }
    if m.Some? {
      if m.value in added {
        LongestFromIsLongest(sp, added, addr, sp.width, m.value);
      } else {
        LongestFromIsLongest(sp, old_, addr, sp.width, m.value);
      }
    }
  }

  function MatchLenOf(e: PolicyEpoch, d: Dest): int {
    match d
    case V4(a) => MatchLen(V4_SPACE, e.bypassV4, a)
    case V6(a) => MatchLen(V6_SPACE, e.bypassV6, a)
  }

  function Verdict(selected: bool, self: bool, tag: Option<BypassTag>, mode: CidrMode): DecisionMode {
    if selected && !self && !TagDirect(mode, tag) then Captured else Direct
  }

  /** Some window shows the flow a verdict that neither end shows. */
  ghost predicate ThirdState(from: PolicyEpoch, desired: PolicyEpoch, uid: nat, d: Dest) {
    exists k :: 0 <= k < 7 &&
      ObserveNewFlow(Windows(from, desired)[k], uid, d) != ObserveNewFlow(from, uid, d) &&
      ObserveNewFlow(Windows(from, desired)[k], uid, d) != ObserveNewFlow(Committed(from, desired), uid, d)
  }

  /** A tag leaves a selected flow captured. */
  predicate Captures(mode: CidrMode, tag: Option<BypassTag>) {
    !TagDirect(mode, tag)
  }

  /** The tag matched while both prefix maps are live: the longer match wins, the new
      map on ties. */
  function MixedTag(from: PolicyEpoch, desired: PolicyEpoch, d: Dest): Option<BypassTag> {
    if MatchLenOf(desired, d) >= MatchLenOf(from, d) then TagOf(desired, d) else TagOf(from, d)
  }

  /** Read off the two ends alone. The ends agree; a captured flow is exposed when the
      mode changes; a direct one when it is selected at some end, not a self address at
      the start, and the old, the mixed or, self addresses aside, the new table
      captures it. */
  predicate EndsExposeThirdState(from: PolicyEpoch, desired: PolicyEpoch, uid: nat, d: Dest) {
    var before, after := ObserveNewFlow(from, uid, d), ObserveNewFlow(desired, uid, d);
    && before == after
    && if before == Captured then from.cidrMode != desired.cidrMode
       else
         && (uid in from.selected || uid in desired.selected)
         && !SelfHit(from, d)
         && (|| Captures(from.cidrMode, TagOf(from, d))
             || Captures(from.cidrMode, MixedTag(from, desired, d))
             || (!SelfHit(desired, d) && Captures(desired.cidrMode, MixedTag(from, desired, d))))
  }

  lemma MergedTag(from: PolicyEpoch, desired: PolicyEpoch, d: Dest)
    requires WellFormed(from) && WellFormed(desired)
    ensures TagOf(Windows(from, desired)[2], d) ==
            if MatchLenOf(desired, d) >= MatchLenOf(from, d) then TagOf(desired, d) else TagOf(from, d)
  {
    match d
    case V4(a) => MergedLpm(V4_SPACE, from.bypassV4, desired.bypassV4, a);
    case V6(a) => MergedLpm(V6_SPACE, from.bypassV6, desired.bypassV6, a);
  }

  lemma WindowVerdicts(from: PolicyEpoch, desired: PolicyEpoch, uid: nat, d: Dest)
    requires WellFormed(from) && WellFormed(desired)
    ensures var w := Windows(from, desired);
            var either := uid in from.selected || uid in desired.selected;
            var self := SelfHit(from, d) || SelfHit(desired, d);
            var tag := if MatchLenOf(desired, d) >= MatchLenOf(from, d) then TagOf(desired, d) else TagOf(from, d);
            && ObserveNewFlow(w[1], uid, d) == Verdict(either, SelfHit(from, d), TagOf(from, d), from.cidrMode)
            && ObserveNewFlow(w[2], uid, d) == Verdict(either, SelfHit(from, d), tag, from.cidrMode)
            && ObserveNewFlow(w[3], uid, d) == Verdict(either, self, tag, from.cidrMode)
            && ObserveNewFlow(w[4], uid, d) == Verdict(either, self, tag, desired.cidrMode)
            && ObserveNewFlow(w[5], uid, d) == Verdict(uid in desired.selected, self, tag, desired.cidrMode)
  {
    MergedTag(from, desired, d);
    var w := Windows(from, desired);
    assert TagOf(w[1], d) == TagOf(from, d);
    assert TagOf(w[3], d) == TagOf(w[4], d) == TagOf(w[5], d) == TagOf(w[2], d);
    assert w[5].selected == desired.selected;
    assert SelfHit(w[3], d) == SelfHit(w[4], d) == SelfHit(w[5], d) == (SelfHit(from, d) || SelfHit(desired, d));
    ObserveIsVerdict(w[1], uid, d);
    ObserveIsVerdict(w[2], uid, d);
    ObserveIsVerdict(w[3], uid, d);
    ObserveIsVerdict(w[4], uid, d);
    ObserveIsVerdict(w[5], uid, d);
  }

  lemma ObserveIsVerdict(e: PolicyEpoch, uid: nat, d: Dest)
    ensures ObserveNewFlow(e, uid, d) == Verdict(uid in e.selected, SelfHit(e, d), TagOf(e, d), e.cidrMode)
  {
  }

  /** Exactly when add-then-subtract exposes a third state. */
  lemma ThirdStateExactly(from: PolicyEpoch, desired: PolicyEpoch, uid: nat, d: Dest)
    requires WellFormed(from) && WellFormed(desired)
    ensures ThirdState(from, desired, uid, d) <==> EndsExposeThirdState(from, desired, uid, d)
  {
    WindowVerdicts(from, desired, uid, d);
    FiniteThirdState(from, desired, uid, d);
    ObserveIsVerdict(from, uid, d);
    ObserveIsVerdict(desired, uid, d);
    LongerMatchHasTag(from, desired, uid, d);
    ExposureCases(uid in from.selected, uid in desired.selected, SelfHit(from, d), SelfHit(desired, d),
      TagOf(from, d), MixedTag(from, desired, d), TagOf(desired, d), from.cidrMode, desired.cidrMode);
    hide TagOf, MatchLenOf, SelfHit, Windows, ThirdState, ObserveNewFlow, Verdict, Captures;
  }

  /** The five windows between the ends, as verdicts over what a flow depends on. */
  lemma ExposureCases(
    selected: bool, selected': bool, self: bool, self': bool,
    tag: Option<BypassTag>, mixed: Option<BypassTag>, tag': Option<BypassTag>, mode: CidrMode, mode': CidrMode)
    requires mixed == tag || mixed == tag'
    requires mixed.Some? <==> tag.Some? || tag'.Some?
    ensures var before, after := Verdict(selected, self, tag, mode), Verdict(selected', self', tag', mode');
            var either, known := selected || selected', self || self';
            before == after && (|| Verdict(either, self, tag, mode) != before
                                || Verdict(either, self, mixed, mode) != before
                                || Verdict(either, known, mixed, mode) != before
                                || Verdict(either, known, mixed, mode') != before
                                || Verdict(selected', known, mixed, mode') != before)
            <==> before == after && if before == Captured then mode != mode'
                                    else either && !self && (|| Captures(mode, tag) || Captures(mode, mixed)
                                                             || (!self' && Captures(mode', mixed)))
  {
  }

  /** A match of some length carries a tag, and no match carries none. */
  lemma LongerMatchHasTag(from: PolicyEpoch, desired: PolicyEpoch, uid: nat, d: Dest)
    ensures MixedTag(from, desired, d).Some? <==> TagOf(from, d).Some? || TagOf(desired, d).Some?
    ensures MixedTag(from, desired, d) == TagOf(from, d) || MixedTag(from, desired, d) == TagOf(desired, d)
    ensures ObserveNewFlow(Committed(from, desired), uid, d) == ObserveNewFlow(desired, uid, d)
  {
  }

  lemma FiniteThirdState(from: PolicyEpoch, desired: PolicyEpoch, uid: nat, d: Dest)
    ensures var w := Windows(from, desired);
            var before, after := ObserveNewFlow(from, uid, d), ObserveNewFlow(Committed(from, desired), uid, d);
            ThirdState(from, desired, uid, d) <==>
            before == after && (|| ObserveNewFlow(w[1], uid, d) != before || ObserveNewFlow(w[2], uid, d) != before
                                || ObserveNewFlow(w[3], uid, d) != before || ObserveNewFlow(w[4], uid, d) != before
                                || ObserveNewFlow(w[5], uid, d) != before)
  {
    var w := Windows(from, desired);
    assert w[0] == from && w[6] == Committed(from, desired);
  }

  /** With mode, selection and self-address membership unchanged, no window
      differs from both ends: a prefix update alone is safe in this order. */
  lemma PrefixUpdateHasNoThirdState(from: PolicyEpoch, desired: PolicyEpoch, uid: nat, d: Dest)
    requires WellFormed(from) && WellFormed(desired)
    requires from.cidrMode == desired.cidrMode
    requires uid in from.selected <==> uid in desired.selected
    requires SelfHit(from, d) <==> SelfHit(desired, d)
    ensures !ThirdState(from, desired, uid, d)
  {
    ThirdStateExactly(from, desired, uid, d);
  }

  /** The defect the protocol is named for: an old prefix flips when the mode
      changes against the union. */
  lemma ModeFlipExposesThirdState(uid: nat)
    ensures var old8 := Cidr(0x0100_0000 as bv32, 8);
            var from := PolicyEpoch(Blacklist, {uid}, {}, map[old8 := Policy], map[], {}, {});
            var desired := from.(cidrMode := Whitelist, bypassV4 := map[]);
            WellFormed(from) && WellFormed(desired) && ThirdState(from, desired, uid, V4(0x0102_0304))
  {
    var old8 := Cidr(0x0100_0000 as bv32, 8);
    var from := PolicyEpoch(Blacklist, {uid}, {}, map[old8 := Policy], map[], {}, {});
    var desired := from.(cidrMode := Whitelist, bypassV4 := map[]);
    var probe: bv32 := 0x0102_0304;
    assert ByteOf(8) == 8;
    assert probe & Mask32(8) == old8.addr && Canonical(V4_SPACE, old8);
    assert In(V4_SPACE, old8, probe);
    LongestFromIsLongest(V4_SPACE, from.bypassV4, probe, 32, old8);
    var none := LongestFrom(V4_SPACE, desired.bypassV4, probe, 32);
    assert none.None?;
    ThirdStateExactly(from, desired, uid, V4(probe));
  }

  // ------------------------------------------------------------ epoch commits

  /** epoch_commit_windows: the old epoch, then the new one. */
  function EpochCommitWindows(from: PolicyEpoch, desired: PolicyEpoch): seq<PolicyEpoch> {
    [from, Committed(from, desired)]
  }

  /** The kernel module commits by SET_BYPASS, which swaps mode, prefixes and
      self-addresses at once, then SET_UIDS, which empties the UID table before it
      publishes the new one. */
  function ModuleCommitWindows(from: PolicyEpoch, desired: PolicyEpoch): (w: seq<PolicyEpoch>)
    ensures |w| == 4
  {
    var next := Committed(from, desired);
    [from, next.(selected := from.selected, draining := from.draining), next.(selected := {}), next]
  }

  /** Some window of a commit shows the flow a verdict that neither end shows. */
  ghost predicate ModuleThirdState(w: seq<PolicyEpoch>, uid: nat, d: Dest)
    requires |w| > 0
  {
    exists k :: 0 <= k < |w| &&
      ObserveNewFlow(w[k], uid, d) != ObserveNewFlow(w[0], uid, d) &&
      ObserveNewFlow(w[k], uid, d) != ObserveNewFlow(w[|w| - 1], uid, d)
  }

  /** The module's commit shows a third verdict in exactly two cases: a UID being
      deselected while its destination leaves the bypass set is captured in between,
      and every flow captured at both ends goes direct while the UID table is empty. */
  lemma ModuleCommitThirdStateExactly(from: PolicyEpoch, desired: PolicyEpoch, uid: nat, d: Dest)
    ensures ModuleThirdState(ModuleCommitWindows(from, desired), uid, d) <==>
              || (uid in from.selected && uid !in desired.selected && BypassDirect(from, d) && !BypassDirect(desired, d))
              || (uid in from.selected && uid in desired.selected && !BypassDirect(from, d) && !BypassDirect(desired, d))
  {
    var w := ModuleCommitWindows(from, desired);
    assert BypassDirect(w[1], d) == BypassDirect(desired, d) == BypassDirect(w[2], d) == BypassDirect(w[3], d);
    assert w[0] == from && w[3] == Committed(from, desired);
    hide BypassDirect;
    assert ObserveNewFlow(w[1], uid, d) == (if uid in from.selected && !BypassDirect(desired, d) then Captured else Direct);
    assert ObserveNewFlow(w[2], uid, d) == Direct;
    assert ModuleThirdState(w, uid, d) <==>
        ObserveNewFlow(w[0], uid, d) == ObserveNewFlow(w[3], uid, d)
        && (|| ObserveNewFlow(w[1], uid, d) != ObserveNewFlow(w[0], uid, d)
            || ObserveNewFlow(w[2], uid, d) != ObserveNewFlow(w[0], uid, d));
  }

  /** The first case, for any UID and destination: the UID is deselected in the commit
      that takes the destination off the self addresses. */
  lemma DeselectionCaptures(uid: nat, d: Dest)
    ensures var off := PolicyEpoch(Blacklist, {}, {}, map[], map[], {}, {});
            var on := match d
              case V4(a) => off.(selected := {uid}, selfV4 := {a})
              case V6(a) => off.(selected := {uid}, selfV6 := {a});
            var w := ModuleCommitWindows(on, off);
            && WellFormed(on) && WellFormed(off) && ModuleThirdState(w, uid, d)
            && ObserveNewFlow(w[0], uid, d) == Direct && ObserveNewFlow(w[1], uid, d) == Captured
            && ObserveNewFlow(w[3], uid, d) == Direct
  {
    var off := PolicyEpoch(Blacklist, {}, {}, map[], map[], {}, {});
    var on := match d
      case V4(a) => off.(selected := {uid}, selfV4 := {a})
      case V6(a) => off.(selected := {uid}, selfV6 := {a});
    assert TagOf(off, d).None? by {
      match d
      case V4(a) => assert LongestFrom(V4_SPACE, off.bypassV4, a, 32).None?;
      case V6(a) => assert LongestFrom(V6_SPACE, off.bypassV6, a, 128).None?;
    }
    hide Lpm, LongestFrom;
    assert BypassDirect(on, d) && !BypassDirect(off, d);
    ModuleCommitThirdStateExactly(on, off, uid, d);
  }

  /** The second case needs no change at all: committing an epoch over itself lets
      every captured flow of it go direct for a moment. */
  lemma RecommitLeaks(epoch: PolicyEpoch, uid: nat, d: Dest)
    requires ObserveNewFlow(epoch, uid, d) == Captured
    ensures ModuleThirdState(ModuleCommitWindows(epoch, epoch), uid, d)
    ensures exists k :: 0 <= k < 4 && ObserveNewFlow(ModuleCommitWindows(epoch, epoch)[k], uid, d) == Direct
  {
    ModuleCommitThirdStateExactly(epoch, epoch, uid, d);
    assert ObserveNewFlow(ModuleCommitWindows(epoch, epoch)[2], uid, d) == Direct;
  }

  /** When SET_UIDS is refused its table is untouched, and the old bypass set is
      published again. */
  function ModuleRollbackWindows(from: PolicyEpoch, desired: PolicyEpoch): (w: seq<PolicyEpoch>)
    ensures |w| == 3
  {
    [from, Committed(from, desired).(selected := from.selected, draining := from.draining), from]
  }

  /** A rolled-back commit shows a third verdict exactly to selected UIDs whose
      destination the new bypass set treats differently. */
  lemma ModuleRollbackThirdStateExactly(from: PolicyEpoch, desired: PolicyEpoch, uid: nat, d: Dest)
    ensures ModuleThirdState(ModuleRollbackWindows(from, desired), uid, d) <==>
              uid in from.selected && BypassDirect(from, d) != BypassDirect(desired, d)
  {
    var w := ModuleRollbackWindows(from, desired);
    assert BypassDirect(w[1], d) == BypassDirect(desired, d);
    assert w[0] == from && w[2] == from;
    hide BypassDirect;
    assert ModuleThirdState(w, uid, d) <==> ObserveNewFlow(w[1], uid, d) != ObserveNewFlow(w[0], uid, d);
  }

  // -------------------------------------------------------------------- peaks

  function AddThenSubtractPeak(oldN: nat, newN: nat, shared: nat): int {
    oldN + newN - shared
  }

  function EpochPeak(oldN: nat, newN: nat): nat {
    if oldN >= newN then oldN else newN
  }

  lemma UnionSize<T>(a: set<T>, b: set<T>)
    ensures |a + b| == |a| + |b| - |a * b|
  {
    assert a + b == a + (b - a);
    assert b == (b - a) + a * b;
  }

  /** The peak formulas are the largest occupancy any window reaches. */
  lemma PeaksAreMaxima(from: PolicyEpoch, desired: PolicyEpoch)
    ensures var shared := |from.bypassV4.Keys * desired.bypassV4.Keys|;
            var peak := AddThenSubtractPeak(|from.bypassV4|, |desired.bypassV4|, shared);
            && (exists k :: 0 <= k < 7 && |Windows(from, desired)[k].bypassV4| == peak)
            && (forall k :: 0 <= k < 7 ==> |Windows(from, desired)[k].bypassV4| <= peak)
    ensures var peak := EpochPeak(|from.bypassV4|, |desired.bypassV4|);
            && (exists k :: 0 <= k < 2 && |EpochCommitWindows(from, desired)[k].bypassV4| == peak)
            && (forall k :: 0 <= k < 2 ==> |EpochCommitWindows(from, desired)[k].bypassV4| <= peak)
  {
    var w := Windows(from, desired);
    var old_, new_ := from.bypassV4.Keys, desired.bypassV4.Keys;
    UnionSize(old_, new_);
    SubsetSize(old_ * new_, old_);
    SubsetSize(old_ * new_, new_);
    assert |w[2].bypassV4| == |w[2].bypassV4.Keys| == |old_ + new_|;
    var c := EpochCommitWindows(from, desired);
    assert c[0].bypassV4 == from.bypassV4 && c[1].bypassV4 == desired.bypassV4;
  }
}
